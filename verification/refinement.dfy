/** The tracer's descriptor tables against the reference kernel: when one system call, clone
    or exit keeps them in agreement, exactly, and so over whole runs. */
module Refinement {
  import opened AtomicEvents
  import opened FdHistory
  import opened FdTables
  import opened HandlerLaws
  import opened Handlers
  import opened Kernels
  import opened Options
  import opened ReadStrings
  import opened Sharing
  import opened SharingSafety
  import opened Syscalls
  import opened Words
  import FileStats

  // ---- agreement ----

  predicate SameEntry(names: seq<CString>, fs: Kernels.Files, t: Table, fd: int) {
    && (fd in fs <==> fd in t)
    && (fd in fs ==> fs[fd].desc < |names| && t[fd] == Entry(names[fs[fd].desc], fs[fd].cloexec))
  }

  /** The same descriptors are open, as the same files, with the same close-on-exec flags.
      Failed duplications leave entries for negative descriptors behind, which do not matter. */
  ghost predicate SameView(names: seq<CString>, fs: Kernels.Files, t: Table) {
    forall fd: int :: fd >= 0 ==> SameEntry(names, fs, t, fd)
  }

  /** Every process has a live thread that sees what the kernel has for it, and threads
      share a table exactly if their processes do. */
  ghost predicate Agrees(k: Kernel, s: State) {
    && Settled(s) && Kernels.WellFormed(k)
    && (forall p: nat :: p in k.procs <==> Live(s, p))
    && (forall p: nat :: p in k.procs ==> SameView(k.names, FilesOf(k, p), TableOf(s, p)))
    && (forall p: nat, q: nat :: p in k.procs && q in k.procs ==> (k.procs[p] == k.procs[q] <==> SameTable(s, p, q)))
  }

  // ---- one table ----

  lemma OpenSeen(names: seq<CString>, fs: Kernels.Files, t: Table, fd: int, name: CString, name': CString,
                 cloexec: bool, cloexec': bool)
    requires SameView(names, fs, t) && fd >= 0
    ensures SameView(names + [name], fs[fd := Slot(|names|, cloexec)], t[fd := Entry(name', cloexec')])
       <==> name == name' && cloexec == cloexec'
  {
    var names', fs', t' := names + [name], fs[fd := Slot(|names|, cloexec)], t[fd := Entry(name', cloexec')];
    if name == name' && cloexec == cloexec' {
      forall d: int | d >= 0 ensures SameEntry(names', fs', t', d) {
        assert SameEntry(names, fs, t, d);
      }
    } else {
      assert !SameEntry(names', fs', t', fd);
    }
  }

  lemma PairSeen(names: seq<CString>, fs: Kernels.Files, t: Table, a: int, b: int, first: CString, second: CString,
                 cloexec: bool, cloexec': bool)
    requires SameView(names, fs, t) && a >= 0 && b >= 0 && a != b
    ensures SameView(names + [first] + [second],
                     fs[a := Slot(|names|, cloexec)][b := Slot(|names| + 1, cloexec)],
                     t[a := Entry(first, cloexec')][b := Entry(second, cloexec')])
       <==> cloexec == cloexec'
  {
    var names', fs', t' := names + [first], fs[a := Slot(|names|, cloexec)], t[a := Entry(first, cloexec')];
    if cloexec == cloexec' {
      OpenSeen(names, fs, t, a, first, first, cloexec, cloexec');
      OpenSeen(names', fs', t', b, second, second, cloexec, cloexec');
    } else {
      assert !SameEntry(names' + [second], fs'[b := Slot(|names'|, cloexec)], t'[b := Entry(second, cloexec')], b);
    }
  }

  lemma DupSeen(names: seq<CString>, fs: Kernels.Files, t: Table, orig: int, dup: int, cloexec: bool, cloexec': bool)
    requires SameView(names, fs, t) && orig in fs && orig >= 0 && dup >= 0
    ensures orig in t
    ensures SameView(names, fs[dup := Slot(fs[orig].desc, cloexec)], t[dup := DupEntry(t[orig], cloexec', false)])
       <==> cloexec == cloexec'
  {
    assert SameEntry(names, fs, t, orig);
    var fs', t' := fs[dup := Slot(fs[orig].desc, cloexec)], t[dup := DupEntry(t[orig], cloexec', false)];
    if cloexec == cloexec' {
      forall d: int | d >= 0 ensures SameEntry(names, fs', t', d) {
        assert SameEntry(names, fs, t, d);
      }
    } else {
      assert !SameEntry(names, fs', t', dup);
    }
  }

  lemma FlagSeen(names: seq<CString>, fs: Kernels.Files, t: Table, fd: int, cloexec: bool)
    requires SameView(names, fs, t) && fd in fs && fd >= 0
    ensures fd in t
    ensures SameView(names, fs[fd := fs[fd].(cloexec := cloexec)], t[fd := t[fd].(cloexec := cloexec)])
    ensures SameView(names, fs[fd := fs[fd].(cloexec := cloexec)], t) <==> fs[fd].cloexec == cloexec
    ensures SameView(names, fs, t[fd := t[fd].(cloexec := cloexec)]) <==> fs[fd].cloexec == cloexec
  {
    assert SameEntry(names, fs, t, fd);
    var fs', t' := fs[fd := fs[fd].(cloexec := cloexec)], t[fd := t[fd].(cloexec := cloexec)];
    forall d: int | d >= 0 ensures SameEntry(names, fs', t', d) {
      assert SameEntry(names, fs, t, d);
    }
    if fs[fd].cloexec == cloexec {
      assert fs' == fs;
      assert t[fd] == t'[fd];
      assert t' == t;
    } else {
      assert !SameEntry(names, fs', t, fd);
      assert !SameEntry(names, fs, t', fd);
    }
  }

  lemma CloseSeen(names: seq<CString>, fs: Kernels.Files, t: Table, fd: int)
    requires SameView(names, fs, t)
    ensures SameView(names, fs - {fd}, t - {fd})
  {
    var fs', t' := fs - {fd}, t - {fd};
    forall d: int | d >= 0 ensures SameEntry(names, fs', t', d) {
      assert SameEntry(names, fs, t, d);
    }
  }

  /** What happens to negative descriptors is not seen. */
  lemma NegativeUnseen(names: seq<CString>, fs: Kernels.Files, t: Table, fd: int, e: Entry)
    requires SameView(names, fs, t) && fd < 0
    ensures SameView(names, fs, t[fd := e])
  {
    var t' := t[fd := e];
    forall d: int | d >= 0 ensures SameEntry(names, fs, t', d) {
      assert SameEntry(names, fs, t, d);
    }
  }

  lemma StripSeen(names: seq<CString>, fs: Kernels.Files, t: Table)
    requires SameView(names, fs, t)
    ensures SameView(names, map fd | fd in fs && !fs[fd].cloexec :: fs[fd], Stripped(t))
    ensures SameView(names, fs, Stripped(t)) <==> forall fd :: fd in fs && fd >= 0 ==> !fs[fd].cloexec
  {
    var fs' := map fd | fd in fs && !fs[fd].cloexec :: fs[fd];
    forall d: int | d >= 0 ensures SameEntry(names, fs', Stripped(t), d) {
      assert SameEntry(names, fs, t, d);
    }
    if fd :| fd in fs && fd >= 0 && fs[fd].cloexec {
      assert SameEntry(names, fs, t, fd);
      assert !SameEntry(names, fs, Stripped(t), fd);
    } else {
      forall d: int | d >= 0 ensures SameEntry(names, fs, Stripped(t), d) {
        assert SameEntry(names, fs, t, d);
      }
    }
  }

  // ---- one system call ----

  /** Whether the handlers get through a system call: the name of an open must be readable,
      and a dup, fcntl or TIOCGPTPEER, even a failing one, must be of a descriptor that the
      table has, unless the handlers do not look it up. */
  predicate Survivable(t: Table, c: Completed) {
    var r, fd, ret := c.regs, Low32(c.regs.rdi), Low32(c.rax);
    match Classify(c.sc)
    case OpenKind(_) => NameReadable(c)
    case DupKind(_) => fd >= 0 && fd != ret ==> fd in t
    case FcntlKind => Low32(r.rsi) in {F_DUPFD, F_DUPFD_CLOEXEC, F_SETFD} && ret != -1 ==> fd in t
    case IoctlKind => Low32(r.rsi) == TIOCGPTPEER ==> fd in t
    case _ => true
  }

  /** Whether the handlers notice all that a system call did, and no more: the name of what is
      opened must fit the buffer, with room for a suffix for TIOCGPTPEER; the second of a pair
      of descriptors must not be among the last bytes that can be read; a socketpair, dup3 or
      TIOCGPTPEER must not ask for close-on-exec; and nothing may change without being
      noticed, by FIOCLEX and FIONCLEX, or be noticed without changing, by a failed F_SETFD. */
  predicate Noticed(fs: Kernels.Files, t: Table, c: Completed) {
    var r, rax, fd, mem := c.regs, c.rax, Low32(c.regs.rdi), c.memAtReturn;
    match Classify(c.sc)
    case OpenKind(_) => rax >= 0 ==> |PathName(c)| < FILENAME_BUFF_SIZE
    case PipeKind(_) => rax == 0 ==> Readable(mem, r.rdi + 4, WORD)
    case SocketPairKind => rax == 0 ==> Readable(mem, r.r10 + 4, WORD) && !HasBit(r.rsi, CLOEXEC)
    case DupKind(dup3) => dup3 && rax >= 0 ==> !HasBit(r.rdx, CLOEXEC)
    case FcntlKind =>
      Low32(r.rsi) == F_SETFD && rax < 0 && rax != -1 && fd in fs ==> fs[fd].cloexec == HasBit(r.rdx, FD_CLOEXEC)
    case IoctlKind =>
      if Low32(r.rsi) == TIOCGPTPEER then
        rax >= 0 ==> !HasBit(r.rdx, CLOEXEC) && (fd in t ==> |t[fd].filename| + 7 < FILENAME_BUFF_SIZE)
      else if Low32(r.rsi) == FIOCLEX || Low32(r.rsi) == FIONCLEX then
        rax >= 0 && fd in fs ==> fs[fd].cloexec == (Low32(r.rsi) == FIOCLEX)
      else true
    case _ => true
  }

  /** Whether the tracer gets a system call right that does not replace the program, given the
      caller's descriptors and table. */
  predicate FaithfulCall(fs: Kernels.Files, t: Table, c: Completed) {
    Survivable(t, c) && Noticed(fs, t, c)
  }

  /** What the kernel did to one process's descriptors, and what the tracer made of it. */
  ghost predicate KeptBy(k: Kernel, p: nat, t: Table, c: Completed) {
    NameReadable(c) &&
    match After(t, EditsOf(c))
    case None => false
    case Some(t') => SameView(Served(k, p, c).names, FilesOf(Served(k, p, c), p), t')
  }

  lemma SmallFitsInt(x: int)
    requires -4096 < x < 0x8000_0000
    ensures Low32(x) == x
  {}

  lemma KeptOpen(k: Kernel, p: nat, t: Table, rax: S64, name: CString, name': CString, cloexec: bool)
    requires Kernels.WellFormed(k) && p in k.procs && SameView(k.names, FilesOf(k, p), t)
    requires NewOrError(FilesOf(k, p), rax)
    ensures var k' := OpenedIf(k, p, rax, name, cloexec);
            match After(t, NewFd(rax, name', cloexec))
            case None => false
            case Some(t') => (SameView(k'.names, FilesOf(k', p), t') <==> (rax >= 0 ==> name == name'))
  {
    hide SameView;
    SmallFitsInt(rax);
    AfterOne(t, Put(rax, name', cloexec));
    if rax >= 0 {
      OpenSeen(k.names, FilesOf(k, p), t, rax, name, name', cloexec, cloexec);
    }
  }

  lemma KeptPair(k: Kernel, p: nat, t: Table, c: Completed, addr: int, first: CString, second: CString,
                 cloexec: bool, cloexec': bool)
    requires Kernels.WellFormed(k) && p in k.procs && SameView(k.names, FilesOf(k, p), t)
    requires c.rax == 0 ==> NewPairAt(FilesOf(k, p), c.memAtReturn, addr)
    ensures var k' := OpenedPair(k, p, c, addr, first, second, cloexec);
            match After(t, NewPair(c.rax, c.memAtReturn, addr, first, second, cloexec'))
            case None => false
            case Some(t') =>
              (SameView(k'.names, FilesOf(k', p), t')
               <==> (c.rax == 0 ==> Readable(c.memAtReturn, addr + 4, WORD) && cloexec == cloexec'))
  {
    hide SameView, PeekInt, IntAt, After, Peek;
    AfterOne(t, Strip);
    if c.rax == 0 {
      var mem := c.memAtReturn;
      var (a, b) := PairAt(mem, addr);
      PeekIntReads(mem, addr);
      PeekIntReads(mem, addr + 4);
      TwoPuts(t, a, first, PeekInt(mem, addr + 4), second, cloexec');
      if Readable(mem, addr + 4, WORD) {
        PairSeen(k.names, FilesOf(k, p), t, a, b, first, second, cloexec, cloexec');
      } else {
        SecondMissed(k.names, FilesOf(k, p), t, a, b, Entry(first, cloexec'), Entry(second, cloexec'),
                     first, second, cloexec);
      }
    }
  }

  /** A descriptor that the tracer recorded as -1 is missing. */
  lemma SecondMissed(names: seq<CString>, fs: Kernels.Files, t: Table, a: int, b: int, e: Entry, e': Entry,
                     first: CString, second: CString, cloexec: bool)
    requires SameView(names, fs, t) && a >= 0 && b >= 0 && a != b && b !in fs
    ensures !SameView(names + [first] + [second],
                      fs[a := Slot(|names|, cloexec)][b := Slot(|names| + 1, cloexec)],
                      t[a := e][-1 := e'])
  {
    assert SameEntry(names, fs, t, b);
    assert !SameEntry(names + [first] + [second],
                      fs[a := Slot(|names|, cloexec)][b := Slot(|names| + 1, cloexec)],
                      t[a := e][-1 := e'], b);
  }

  /** Files, table and kernel of one process that agree. */
  ghost predicate Matching(k: Kernel, p: nat, t: Table) {
    Kernels.WellFormed(k) && p in k.procs && SameView(k.names, FilesOf(k, p), t)
  }

  lemma MatchingView(k: Kernel, p: nat, t: Table)
    requires Matching(k, p, t)
    ensures SameView(k.names, FilesOf(k, p), t)
  {}

  lemma SameDescriptors(k: Kernel, p: nat, t: Table, fd: int)
    requires Matching(k, p, t)
    ensures fd in FilesOf(k, p) ==> fd >= 0 && fd in t
    ensures fd >= 0 && fd in t ==> fd in FilesOf(k, p)
    ensures fd in FilesOf(k, p) ==> FilesOf(k, p)[fd].desc < |k.names|
    ensures fd in FilesOf(k, p) ==> t[fd].filename == k.names[FilesOf(k, p)[fd].desc]
  {
    if fd >= 0 {
      assert SameEntry(k.names, FilesOf(k, p), t, fd);
    }
  }

  /** A failed duplication leaves at most an entry for a negative descriptor behind. */
  lemma FailedDup(k: Kernel, p: nat, t: Table, orig: int, dup: int, cloexec: bool, slave: bool)
    requires Matching(k, p, t) && dup < 0
    ensures match After(t, [Dup(orig, dup, cloexec, slave)])
            case None => orig !in t
            case Some(t') => orig in t && SameView(k.names, FilesOf(k, p), t')
  {
    hide SameView;
    AfterOne(t, Dup(orig, dup, cloexec, slave));
    if orig in t {
      NegativeUnseen(k.names, FilesOf(k, p), t, dup, DupEntry(t[orig], cloexec, slave));
    }
  }

  lemma GoodDup(k: Kernel, p: nat, t: Table, orig: int, dup: int, cloexec: bool, cloexec': bool)
    requires Matching(k, p, t) && orig in FilesOf(k, p) && dup >= 0
    ensures var k' := Duplicated(k, p, orig, dup, cloexec);
            match After(t, [Dup(orig, dup, cloexec', false)])
            case None => false
            case Some(t') => orig in t && (SameView(k'.names, FilesOf(k', p), t') <==> cloexec == cloexec')
  {
    hide SameView;
    SameDescriptors(k, p, t, orig);
    AfterOne(t, Dup(orig, dup, cloexec', false));
    DupSeen(k.names, FilesOf(k, p), t, orig, dup, cloexec, cloexec');
  }

  lemma DupKeptExactly(k: Kernel, p: nat, t: Table, c: Completed)
    requires Matching(k, p, t) && Answers(FilesOf(k, p), c) && Classify(c.sc).DupKind?
    ensures KeptBy(k, p, t, c) <==> FaithfulCall(FilesOf(k, p), t, c)
  {
    hide SameView, HasBit, Low32, Matching, Kernels.WellFormed;
    var fd, dup3 := Low32(c.regs.rdi), Classify(c.sc).dup3;
    SmallFitsInt(c.rax);
    AfterOne(t, Strip);
    SameDescriptors(k, p, t, fd);
    MatchingView(k, p, t);
    if c.rax < 0 {
      FailedDup(k, p, t, fd, c.rax, false, false);
    } else if fd != c.rax {
      GoodDup(k, p, t, fd, c.rax, dup3 && HasBit(c.regs.rdx, CLOEXEC), false);
    }
  }

  /** A flag that was set is seen; one that was not set is seen if it made no difference. */
  lemma SetFlagKept(k: Kernel, p: nat, t: Table, fd: int, cloexec: bool)
    requires Matching(k, p, t)
    ensures var k' := Flagged(k, p, fd, cloexec);
            match After(t, [SetFlag(fd, cloexec)])
            case None => fd !in t
            case Some(t') =>
              && fd in t && SameView(k'.names, FilesOf(k', p), t')
              && (SameView(k.names, FilesOf(k, p), t')
                  <==> (fd in FilesOf(k, p) ==> FilesOf(k, p)[fd].cloexec == cloexec))
  {
    hide SameView;
    AfterOne(t, SetFlag(fd, cloexec));
    SameDescriptors(k, p, t, fd);
    if fd in FilesOf(k, p) {
      FlagSeen(k.names, FilesOf(k, p), t, fd, cloexec);
    } else if fd in t {
      NegativeUnseen(k.names, FilesOf(k, p), t, fd, t[fd].(cloexec := cloexec));
    }
  }

  lemma FcntlKeptExactly(k: Kernel, p: nat, t: Table, c: Completed)
    requires Matching(k, p, t) && Answers(FilesOf(k, p), c) && Classify(c.sc).FcntlKind?
    ensures KeptBy(k, p, t, c) <==> FaithfulCall(FilesOf(k, p), t, c)
  {
    hide SameView, HasBit, Low32, Matching, Kernels.WellFormed, Flagged, Duplicated, After, Classify, FilesOf;
    var fd, cmd := Low32(c.regs.rdi), Low32(c.regs.rsi);
    AfterOne(t, Strip);
    SameDescriptors(k, p, t, fd);
    MatchingView(k, p, t);
    if cmd in {F_DUPFD, F_DUPFD_CLOEXEC} {
      SmallFitsInt(c.rax);
      if c.rax < 0 {
        FailedDup(k, p, t, fd, c.rax, cmd == F_DUPFD_CLOEXEC, false);
      } else {
        GoodDup(k, p, t, fd, c.rax, cmd == F_DUPFD_CLOEXEC, cmd == F_DUPFD_CLOEXEC);
      }
    } else if cmd == F_SETFD {
      SmallFitsInt(c.rax);
      SetFlagKept(k, p, t, fd, HasBit(c.regs.rdx, FD_CLOEXEC));
    }
  }

  lemma GoodPeer(k: Kernel, p: nat, t: Table, master: int, fd: int, cloexec: bool)
    requires Matching(k, p, t) && master in FilesOf(k, p) && fd >= 0
    ensures var k' := Opened(k, p, fd, PeerName(k, FilesOf(k, p), master), cloexec);
            match After(t, [Dup(master, fd, false, true)])
            case None => false
            case Some(t') =>
              master in t &&
              (SameView(k'.names, FilesOf(k', p), t') <==> !cloexec && |t[master].filename| + 7 < FILENAME_BUFF_SIZE)
  {
    hide SameView;
    SameDescriptors(k, p, t, master);
    AfterOne(t, Dup(master, fd, false, true));
    var name := t[master].filename;
    SlaveNameIsWhole(name);
    OpenSeen(k.names, FilesOf(k, p), t, fd, name + " slave", SlaveName(name), cloexec, false);
  }

  lemma SlaveNameIsWhole(name: CString)
    ensures SlaveName(name) == name + " slave" <==> |name| + 7 < FILENAME_BUFF_SIZE
  {
    if |name| + 7 >= FILENAME_BUFF_SIZE {
      assert |SlaveName(name)| == |name| - 1;
    }
  }

  lemma Reflagged(k: Kernel, p: nat, t: Table, fd: int, cloexec: bool)
    requires Matching(k, p, t) && fd in FilesOf(k, p)
    ensures var k' := Flagged(k, p, fd, cloexec);
            SameView(k'.names, FilesOf(k', p), t) <==> FilesOf(k, p)[fd].cloexec == cloexec
  {
    hide SameView;
    SameDescriptors(k, p, t, fd);
    FlagSeen(k.names, FilesOf(k, p), t, fd, cloexec);
  }

  lemma IoctlKeptExactly(k: Kernel, p: nat, t: Table, c: Completed)
    requires Matching(k, p, t) && Answers(FilesOf(k, p), c) && Classify(c.sc).IoctlKind?
    ensures KeptBy(k, p, t, c) <==> FaithfulCall(FilesOf(k, p), t, c)
  {
    hide SameView, HasBit, Low32, Matching, Kernels.WellFormed, Flagged, Opened, PeerName, After, Classify, FilesOf;
    var fd, request := Low32(c.regs.rdi), Low32(c.regs.rsi);
    AfterOne(t, Strip);
    SameDescriptors(k, p, t, fd);
    MatchingView(k, p, t);
    if request == TIOCGPTPEER {
      SmallFitsInt(c.rax);
      if c.rax < 0 {
        FailedDup(k, p, t, fd, c.rax, false, true);
      } else {
        GoodPeer(k, p, t, fd, c.rax, HasBit(c.regs.rdx, CLOEXEC));
      }
    } else if request in {FIOCLEX, FIONCLEX} && c.rax >= 0 {
      Reflagged(k, p, t, fd, request == FIOCLEX);
    }
  }

  lemma OpenKeptExactly(k: Kernel, p: nat, t: Table, c: Completed)
    requires Matching(k, p, t) && Answers(FilesOf(k, p), c) && Classify(c.sc).OpenKind?
    ensures KeptBy(k, p, t, c) <==> FaithfulCall(FilesOf(k, p), t, c)
  {
    hide SameView, HasBit, Low32, Kernels.WellFormed, OpenedIf, After, Classify, FilesOf;
    hide Succeeds, NewOrError, OpenedName, PathName, HasPath;
    if NameReadable(c) {
      KeptOpen(k, p, t, c.rax, PathName(c), OpenedName(c), HasBit(FlagsRegister(Classify(c.sc).at, c.regs), CLOEXEC));
      if c.rax >= 0 {
        OpenedNameIsCut(c);
      }
    }
  }

  /** One system call, other than execve, exactly. */
  lemma CallKeptExactly(k: Kernel, p: nat, t: Table, c: Completed)
    requires Matching(k, p, t) && Answers(FilesOf(k, p), c) && !Classify(c.sc).ExecveKind?
    ensures KeptBy(k, p, t, c) <==> FaithfulCall(FilesOf(k, p), t, c)
  {
    hide SameView, HasBit, Low32, Kernels.WellFormed, OpenedIf, OpenedPair, Opened, After, Classify, FilesOf;
    hide Succeeds, Readable, NewPairAt, PeekInt, OpenedName, PathName, HasPath;
    var rax, r := c.rax, c.regs;
    match Classify(c.sc)
    case OpenKind(_) => OpenKeptExactly(k, p, t, c);
    case SocketKind => KeptOpen(k, p, t, rax, SOCKET, SOCKET, HasBit(r.rsi, CLOEXEC));
    case EventFdKind(two) => KeptOpen(k, p, t, rax, EVENTFD, EVENTFD, two && HasBit(r.rsi, CLOEXEC));
    case EpollKind(one) => KeptOpen(k, p, t, rax, EPOLL, EPOLL, one && HasBit(r.rdi, CLOEXEC));
    case AcceptKind(four) => KeptOpen(k, p, t, rax, ACCEPT, ACCEPT, four && HasBit(r.r10, CLOEXEC));
    case PipeKind(two) =>
      KeptPair(k, p, t, c, r.rdi, PIPE_R, PIPE_W, two && HasBit(r.rsi, CLOEXEC), two && HasBit(r.rsi, CLOEXEC));
    case SocketPairKind => KeptPair(k, p, t, c, r.r10, SOCKET, SOCKET, HasBit(r.rsi, CLOEXEC), false);
    case CloseKind => CloseKept(k, p, t, Low32(r.rdi));
    case DupKind(_) => DupKeptExactly(k, p, t, c);
    case FcntlKind => FcntlKeptExactly(k, p, t, c);
    case IoctlKind => IoctlKeptExactly(k, p, t, c);
    case _ => AfterOne(t, Strip);
  }

  lemma CloseKept(k: Kernel, p: nat, t: Table, fd: int)
    requires Matching(k, p, t)
    ensures var k' := Closed(k, p, fd);
            After(t, [Drop(fd)]) == Some(t - {fd}) && SameView(k'.names, FilesOf(k', p), t - {fd})
  {
    hide SameView;
    AfterOne(t, Drop(fd));
    CloseSeen(k.names, FilesOf(k, p), t, fd);
  }

  // ---- all tables ----

  /** The system call that spawned a child; that of clone3 has its flags in memory. */
  datatype How = CloneCall | Clone3Call(flags: int) | ForkCall | VforkCall

  /** Whether the child shares its parent's file table. */
  predicate SharesTable(how: How, rdi: int) {
    match how
    case CloneCall => HasBit(rdi, CLONE_FILES)
    case Clone3Call(flags) => HasBit(flags, CLONE_FILES)
    case ForkCall => false
    case VforkCall => false
  }

  /** A system call completes and is handled, a child is spawned and its thread registers,
      or a process exits and its thread cleans up, each undisturbed by other threads. */
  datatype Event =
    | Sys(p: nat, c: Completed)
    | Spawn(p: nat, child: nat, how: How, rdi: int)
    | Exit(p: nat)

  function KernelAfter(k: Kernel, e: Event): Kernel {
    match e
    case Sys(p, c) => Served(k, p, c)
    case Spawn(p, child, how, rdi) => Spawned(k, p, child, SharesTable(how, rdi))
    case Exit(p) => Exited(k, p)
  }

  /** The tracer gives up, which is as bad as a crash, if it cannot read the name of an open. */
  function TracerAfter(s: State, e: Event): State {
    match e
    case Sys(p, c) =>
      if !NameReadable(c) then s.(crashed := true)
      else Perform(s, if Classify(c.sc).ExecveKind? then ExecSteps(s, p) else EditSteps(p, EditsOf(c)))
    case Spawn(p, child, how, rdi) => Perform(s, CloneSteps(p, child, HasBit(Low32(rdi), CLONE_FILES)))
    case Exit(p) => Perform(s, ExitSteps(s, p))
  }

  /** The process is there, the kernel answers as documented, and no process id comes twice. */
  ghost predicate Possible(k: Kernel, s: State, e: Event) {
    e.p in k.procs &&
    match e
    case Sys(p, c) => Answers(FilesOf(k, p), c)
    case Spawn(_, child, _, _) => child !in s.threads
    case Exit(_) => true
  }

  /** Whether the tracer gets an event right. An execve that fails must have been one that
      would have changed nothing; whatever the call, the tracer reads flags from its first
      argument register, which for fork and vfork means nothing and for clone3 is an address. */
  ghost predicate Faithful(k: Kernel, s: State, e: Event) {
    match e
    case Sys(p, c) =>
      if Classify(c.sc).ExecveKind? then
        c.rax < 0 ==> !SharesFiles(k, p) && forall fd :: fd in FilesOf(k, p) ==> !FilesOf(k, p)[fd].cloexec
      else FaithfulCall(FilesOf(k, p), TableOf(s, p), c)
    case Spawn(_, _, CloneCall, _) => true
    case Spawn(_, _, Clone3Call(flags), rdi) => HasBit(rdi, CLONE_FILES) == HasBit(flags, CLONE_FILES)
    case Spawn(_, _, ForkCall, rdi) => !HasBit(rdi, CLONE_FILES)
    case Spawn(_, _, VforkCall, rdi) => !HasBit(rdi, CLONE_FILES)
    case Exit(_) => true
  }

  lemma SurvivesHistoryExactly(t: Table, c: Completed)
    requires NameReadable(c) && !Classify(c.sc).ExecveKind?
    ensures After(t, EditsOf(c)).Some? <==> Survivable(t, c)
  {
    hide Low32, HasBit, PeekInt, Classify, Succeeds;
    var es := EditsOf(c);
    if |es| == 2 {
      assert es == [es[0], es[1]];
      HistoryStep(t, es[0], [es[1]]);
      AfterOne(Edited(t, es[0]), es[1]);
    } else if |es| == 1 {
      AfterOne(t, es[0]);
    }
  }

  /** A system call takes the tracer down exactly if its handlers do not get through it. */
  lemma CrashesExactly(s: State, p: nat, c: Completed)
    requires Settled(s) && Live(s, p)
    ensures TracerAfter(s, Sys(p, c)).crashed <==> !Survivable(TableOf(s, p), c)
  {
    hide Inv, Perform, TableOf, EditsOf, After, Classify, ExecSteps, EditSteps, Succeeds, Low32;
    if NameReadable(c) {
      if Classify(c.sc).ExecveKind? {
        ExecPerformed(s, p);
        NotCrashed(TracerAfter(s, Sys(p, c)));
      } else {
        NoStrip(c);
        SurvivesHistoryExactly(TableOf(s, p), c);
        EditsPerformed(s, p, EditsOf(c));
        if Survivable(TableOf(s, p), c) {
          NotCrashed(TracerAfter(s, Sys(p, c)));
        }
      }
    }
  }

  lemma MoreNames(names: seq<CString>, names': seq<CString>, fs: Kernels.Files, t: Table)
    requires names <= names' && SameView(names, fs, t)
    ensures SameView(names', fs, t)
  {
    forall d: int | d >= 0 ensures SameEntry(names', fs, t, d) {
      assert SameEntry(names, fs, t, d);
    }
  }

  /** If both sides change one table only, they agree again exactly if they agree on that table. */
  lemma OneTableChanged(k: Kernel, s: State, k': Kernel, s': State, p: nat, t': Table)
    requires Agrees(k, s) && p in k.procs && OnlyFilesOf(k, k', p)
    requires Settled(s') && s' == s.(heap := s.heap[s.threads[p].table := TableCell(t')])
    ensures Agrees(k', s') <==> SameView(k'.names, FilesOf(k', p), t')
  {
    hide Settled, SameView;
    assert Live(s, p) && TableOf(s', p) == t';
    if SameView(k'.names, FilesOf(k', p), t') {
      forall q: nat | q in k'.procs ensures SameView(k'.names, FilesOf(k', q), TableOf(s', q)) {
        assert Live(s, q);
        if k.procs[q] == k.procs[p] {
          assert SameTable(s, q, p);
        } else {
          assert !SameTable(s, q, p);
          MoreNames(k.names, k'.names, FilesOf(k, q), TableOf(s, q));
        }
      }
      forall q: nat, u: nat | q in k'.procs && u in k'.procs
        ensures k'.procs[q] == k'.procs[u] <==> SameTable(s', q, u)
      {
        assert SameTable(s, q, u) <==> SameTable(s', q, u);
      }
    }
  }

  lemma CallEventExactly(k: Kernel, s: State, p: nat, c: Completed)
    requires Agrees(k, s) && Possible(k, s, Sys(p, c)) && !Classify(c.sc).ExecveKind?
    ensures Agrees(KernelAfter(k, Sys(p, c)), TracerAfter(s, Sys(p, c))) <==> Faithful(k, s, Sys(p, c))
  {
    hide Inv, Served, Answers, FaithfulCall, SameView, FilesOf, TableOf, EditsOf, NameReadable, Classify, After;
    hide Perform, OnlyFilesOf;
    var t := TableOf(s, p);
    CallKeptExactly(k, p, t, c);
    ServedOnly(k, p, c);
    if NameReadable(c) {
      var es := EditsOf(c);
      NoStrip(c);
      EditsPerformed(s, p, es);
      if After(t, es).Some? {
        OneTableChanged(k, s, Served(k, p, c), TracerAfter(s, Sys(p, c)), p, After(t, es).value);
      } else {
        CrashedDisagrees(KernelAfter(k, Sys(p, c)), TracerAfter(s, Sys(p, c)));
      }
    } else {
      CrashedDisagrees(KernelAfter(k, Sys(p, c)), TracerAfter(s, Sys(p, c)));
    }
  }

  lemma CrashedDisagrees(k: Kernel, s: State)
    ensures s.crashed ==> !Agrees(k, s)
  {}

  lemma NoStrip(c: Completed)
    requires NameReadable(c) && !Classify(c.sc).ExecveKind?
    ensures Strip !in EditsOf(c)
  {
    hide Low32, HasBit, PeekInt, Succeeds;
  }

  // ---- one process changed ----

  /** On both sides nothing happened to processes other than p. */
  ghost predicate OthersStay(k: Kernel, s: State, k': Kernel, s': State, p: nat) {
    OthersAsBefore(s, s', p) && OnlyProcess(k, k', p)
  }

  /** Process p is in the same company on both sides. */
  ghost predicate SameCompany(k: Kernel, s: State, p: nat) {
    forall q: nat :: q in k.procs && q != p && p in k.procs ==> (k.procs[q] == k.procs[p] <==> SameTable(s, p, q))
  }

  lemma OneProcessChanged(k: Kernel, s: State, k': Kernel, s': State, p: nat)
    requires Agrees(k, s) && OthersStay(k, s, k', s', p)
    requires Settled(s') && Kernels.WellFormed(k')
    requires p in k'.procs <==> Live(s', p)
    ensures Agrees(k', s') <==>
      (p in k'.procs ==> SameView(k'.names, FilesOf(k', p), TableOf(s', p)) && SameCompany(k', s', p))
  {
    hide Settled, SameView, FilesOf, TableOf, Kernels.WellFormed;
    if p in k'.procs ==> SameView(k'.names, FilesOf(k', p), TableOf(s', p)) && SameCompany(k', s', p) {
      forall q: nat | q in k'.procs ensures Live(s', q) && SameView(k'.names, FilesOf(k', q), TableOf(s', q)) {
        assert q != p ==> Live(s, q);
      }
      forall q: nat | Live(s', q) ensures q in k'.procs {
        assert q != p ==> Live(s, q);
      }
      forall q: nat, u: nat | q in k'.procs && u in k'.procs
        ensures k'.procs[q] == k'.procs[u] <==> SameTable(s', q, u)
      {
        if q != p && u != p {
          assert Live(s, q) && Live(s, u);
        }
      }
    }
  }

  /** In the kernel nothing happened to processes other than p. */
  ghost predicate OnlyProcess(k: Kernel, k': Kernel, p: nat) {
    && k'.names == k.names
    && forall q: nat :: q != p ==>
         && (q in k'.procs <==> q in k.procs)
         && (q in k.procs ==> k'.procs[q] == k.procs[q] && FilesOf(k', q) == FilesOf(k, q))
  }

  lemma ExecutedFacts(k: Kernel, p: nat)
    requires Kernels.WellFormed(k) && p in k.procs
    ensures var k' := Executed(k, p);
            && Kernels.WellFormed(k') && OnlyProcess(k, k', p) && p in k'.procs
            && FilesOf(k', p) == (map fd | fd in FilesOf(k, p) && !FilesOf(k, p)[fd].cloexec :: FilesOf(k, p)[fd])
            && forall q :: q in k.procs && q != p ==> k'.procs[q] != k'.procs[p]
  {}

  lemma SpawnedFacts(k: Kernel, p: nat, child: nat, shared: bool)
    requires Kernels.WellFormed(k) && p in k.procs && child !in k.procs
    ensures var k' := Spawned(k, p, child, shared);
            && Kernels.WellFormed(k') && OnlyProcess(k, k', child) && child in k'.procs
            && FilesOf(k', child) == FilesOf(k, p)
            && forall q :: q in k.procs ==> (k'.procs[q] == k'.procs[child] <==> shared && k.procs[q] == k.procs[p])
  {}

  lemma ExitedFacts(k: Kernel, p: nat)
    requires Kernels.WellFormed(k)
    ensures Kernels.WellFormed(Exited(k, p)) && OnlyProcess(k, Exited(k, p), p) && p !in Exited(k, p).procs
  {}

  // ---- execve ----

  lemma GoodExec(k: Kernel, s: State, p: nat)
    requires Agrees(k, s) && p in k.procs
    ensures Agrees(Executed(k, p), Perform(s, ExecSteps(s, p)))
  {
    hide Settled, SameView, Perform, ExecSteps, Stripped, TableOf, FilesOf, Executed, Kernels.WellFormed;
    var k', s' := Executed(k, p), Perform(s, ExecSteps(s, p));
    assert Live(s, p);
    ExecPerformed(s, p);
    StripSeen(k.names, FilesOf(k, p), TableOf(s, p));
    ExecutedFacts(k, p);
    OthersStayLive(k, s, k', s', p);
    OneProcessChanged(k, s, k', s', p);
  }

  /** What SameCompany needs to know about the others. */
  lemma OthersStayLive(k: Kernel, s: State, k': Kernel, s': State, p: nat)
    requires Agrees(k, s) && OthersAsBefore(s, s', p)
    requires forall q: nat :: q != p && q in k'.procs ==> q in k.procs
    ensures forall q: nat :: q != p && q in k'.procs ==> Live(s, q) && Live(s', q)
  {
    hide Settled, SameView;
    forall q: nat | q != p && q in k'.procs ensures Live(s, q) && Live(s', q) {}
  }

  lemma FailedExec(k: Kernel, s: State, p: nat)
    requires Agrees(k, s) && p in k.procs
    ensures Agrees(k, Perform(s, ExecSteps(s, p)))
       <==> !SharesFiles(k, p) && forall fd :: fd in FilesOf(k, p) ==> !FilesOf(k, p)[fd].cloexec
  {
    hide Settled, SameView, Perform, ExecSteps, Stripped, TableOf;
    var s' := Perform(s, ExecSteps(s, p));
    assert Live(s, p);
    ExecPerformed(s, p);
    StripSeen(k.names, FilesOf(k, p), TableOf(s, p));
    OthersStayLive(k, s, k, s', p);
    OneProcessChanged(k, s, k, s', p);
  }

  // ---- spawning and exiting ----

  lemma SpawnExactly(k: Kernel, s: State, p: nat, child: nat, shared: bool, share: bool)
    requires Agrees(k, s) && p in k.procs && child !in s.threads
    ensures Agrees(Spawned(k, p, child, shared), Perform(s, CloneSteps(p, child, share))) <==> shared == share
  {
    hide Settled, SameView, Perform, CloneSteps, TableOf, FilesOf, Spawned, Kernels.WellFormed;
    var k', s' := Spawned(k, p, child, shared), Perform(s, CloneSteps(p, child, share));
    assert Live(s, p) && child !in k.procs;
    ClonePerformed(s, p, child, share);
    SpawnedFacts(k, p, child, shared);
    OthersStayLive(k, s, k', s', child);
    OneProcessChanged(k, s, k', s', child);
    assert p in k'.procs && (k'.procs[p] == k'.procs[child] <==> shared);
    assert SameTable(s', child, p) <==> share;
  }

  lemma ExitKept(k: Kernel, s: State, p: nat)
    requires Agrees(k, s) && p in k.procs
    ensures Agrees(Exited(k, p), Perform(s, ExitSteps(s, p)))
  {
    hide Settled, SameView, Perform, ExitSteps, TableOf, FilesOf, Exited, Kernels.WellFormed;
    assert Live(s, p);
    ExitPerformed(s, p);
    ExitedFacts(k, p);
    OneProcessChanged(k, s, Exited(k, p), Perform(s, ExitSteps(s, p)), p);
  }

  /** Any one event keeps kernel and tracer in agreement, with the tracer alive, exactly if
      the tracer gets it right. */
  lemma AgreementKeptExactly(k: Kernel, s: State, e: Event)
    requires Agrees(k, s) && Possible(k, s, e)
    ensures Agrees(KernelAfter(k, e), TracerAfter(s, e)) <==> Faithful(k, s, e)
  {
    hide Agrees, Answers, Perform, FaithfulCall, FilesOf, EditsOf, ExecSteps, EditSteps, CloneSteps, ExitSteps;
    hide Classify, Low32, HasBit, Executed, SharesFiles, Succeeds;
    match e
    case Sys(p, c) =>
      if !Classify(c.sc).ExecveKind? {
        CallEventExactly(k, s, p, c);
      } else if c.rax < 0 {
        FailedExec(k, s, p);
      } else {
        GoodExec(k, s, p);
      }
    case Spawn(p, child, how, rdi) =>
      Low32KeepsFlags(rdi);
      SpawnExactly(k, s, p, child, SharesTable(how, rdi), HasBit(rdi, CLONE_FILES));
    case Exit(p) => ExitKept(k, s, p);
  }

  // ---- runs ----

  lemma BootedAgrees()
    ensures Agrees(BOOTED, INIT)
  {
    hide Inv, SameView;
    InitInv();
    BootedSeen();
  }

  lemma BootedSeen()
    ensures SameView(BOOTED.names, BOOTED.tables[0], INITIAL)
  {
    forall d: int | d >= 0 ensures SameEntry(BOOTED.names, BOOTED.tables[0], INITIAL, d) {}
  }

  ghost predicate AllPossible(k: Kernel, s: State, es: seq<Event>)
    decreases |es|
  {
    es != [] ==> Possible(k, s, es[0]) && AllPossible(KernelAfter(k, es[0]), TracerAfter(s, es[0]), es[1..])
  }

  ghost predicate AllFaithful(k: Kernel, s: State, es: seq<Event>)
    decreases |es|
  {
    es != [] ==> Faithful(k, s, es[0]) && AllFaithful(KernelAfter(k, es[0]), TracerAfter(s, es[0]), es[1..])
  }

  ghost predicate AgreeThroughout(k: Kernel, s: State, es: seq<Event>)
    decreases |es|
  {
    Agrees(k, s) && (es != [] ==> AgreeThroughout(KernelAfter(k, es[0]), TracerAfter(s, es[0]), es[1..]))
  }

  lemma {:induction false} RunAgreesExactly(k: Kernel, s: State, es: seq<Event>)
    requires Agrees(k, s) && AllPossible(k, s, es)
    ensures AgreeThroughout(k, s, es) <==> AllFaithful(k, s, es)
    decreases |es|
  {
    hide Agrees, Possible, Faithful, KernelAfter, TracerAfter;
    if es != [] {
      AgreementKeptExactly(k, s, es[0]);
      if Faithful(k, s, es[0]) {
        RunAgreesExactly(KernelAfter(k, es[0]), TracerAfter(s, es[0]), es[1..]);
      } else {
        DisagreesThere(KernelAfter(k, es[0]), TracerAfter(s, es[0]), es[1..]);
      }
    }
  }

  lemma DisagreesThere(k: Kernel, s: State, es: seq<Event>)
    requires !Agrees(k, s)
    ensures !AgreeThroughout(k, s, es)
  {
    hide Agrees;
  }

  /** From the start of a trace, whatever system calls, clones and exits follow: tracer and
      kernel agree at every point exactly if the tracer gets every event right. */
  lemma TracerRefinesKernel(es: seq<Event>)
    requires AllPossible(BOOTED, INIT, es)
    ensures AgreeThroughout(BOOTED, INIT, es) <==> AllFaithful(BOOTED, INIT, es)
  {
    hide Agrees, AllPossible, AllFaithful, AgreeThroughout;
    BootedAgrees();
    RunAgreesExactly(BOOTED, INIT, es);
  }

  /** While they agree, a descriptor is charged under the name its open file description was
      opened as, however it was duplicated or inherited, and under "NULL" if it is not open. */
  lemma ChargedUnderKernelName(k: Kernel, s: State, p: nat, fd: int)
    requires Agrees(k, s) && p in k.procs && fd >= 0
    ensures var fs := FilesOf(k, p);
            NameFor(TableOf(s, p), fd) == if fd in fs && fs[fd].desc < |k.names| then k.names[fs[fd].desc] else "NULL"
    ensures fd in FilesOf(k, p) ==> FilesOf(k, p)[fd].desc < |k.names|
  {
    hide Settled;
    assert SameEntry(k.names, FilesOf(k, p), TableOf(s, p), fd);
  }

  predicate Succeeded(c: Completed) {
    if Classify(c.sc).PipeKind? || Classify(c.sc).SocketPairKind? then c.rax == 0 else c.rax >= 0
  }

  function ChargedNames(cs: seq<FileStats.Charge>): seq<string> {
    if cs == [] then [] else ChargedNames(cs[..|cs| - 1]) + [cs[|cs| - 1].name]
  }

  /** A call that opens files is charged under the very names that the new open file
      descriptions are opened as, exactly if it is not an open of a path that outgrows the
      buffer; a call that fails opens nothing. */
  lemma ChargedAsOpened(k: Kernel, p: nat, c: Completed, t: Table)
    requires Opens(Classify(c.sc)) && NameReadable(c) && Answers(FilesOf(k, p), c)
    ensures !Succeeded(c) ==> Served(k, p, c).names == k.names
    ensures Succeeded(c) ==>
      (Served(k, p, c).names == k.names + ChargedNames(ChargesOf(c, t))
       <==> (Classify(c.sc).OpenKind? ==> |PathName(c)| < FILENAME_BUFF_SIZE))
  {
    hide Low32, HasBit, PeekInt, Succeeds, FilesOf, WithFiles, PathName, OpenedName, HasPath, NewOrError, NewPairAt;
    NamesKept(k, p);
    var cs := ChargesOf(c, t);
    if |cs| == 1 {
      assert cs[..0] == [] && ChargedNames(cs) == [cs[0].name];
      if Classify(c.sc).OpenKind? && c.rax >= 0 {
        OpenedNameIsCut(c);
        assert Served(k, p, c).names == k.names + [PathName(c)];
        assert (k.names + [PathName(c)])[|k.names|] == PathName(c);
        assert (k.names + [OpenedName(c)])[|k.names|] == OpenedName(c);
      }
    } else if |cs| == 2 {
      assert cs[..1] == [cs[0]] && [cs[0]][..0] == [] && ChargedNames(cs[..1]) == [cs[0].name];
      assert ChargedNames(cs) == [cs[0].name, cs[1].name];
    }
  }

  lemma NamesKept(k: Kernel, p: nat)
    ensures forall fs :: WithFiles(k, p, fs).names == k.names
  {}
}
