/** A reference kernel: descriptors refer to open file descriptions, file tables are shared
    or not, and every system call has the effect that Linux documents for it. */
module Kernels {
  import opened FdTables
  import opened HandlerLaws
  import opened ReadStrings
  import opened Syscalls
  import opened Words

  /** A descriptor refers to the open file description with the given number. */
  datatype Slot = Slot(desc: nat, cloexec: bool)

  type Files = map<int, Slot>

  /** names tells for each open file description what it was opened as. */
  datatype Kernel = Kernel(names: seq<CString>, tables: seq<Files>, procs: map<nat, nat>)

  const BOOTED := Kernel(
    ["stdin", "stdout", "stderr"],
    [map[0 := Slot(0, false), 1 := Slot(1, false), 2 := Slot(2, false)]],
    map[0 := 0])

  ghost predicate WellFormed(k: Kernel) {
    && (forall p :: p in k.procs ==> k.procs[p] < |k.tables|)
    && (forall i, fd :: 0 <= i < |k.tables| && fd in k.tables[i] ==> fd >= 0 && k.tables[i][fd].desc < |k.names|)
  }

  function FilesOf(k: Kernel, p: nat): Files {
    if p in k.procs && k.procs[p] < |k.tables| then k.tables[k.procs[p]] else map[]
  }

  /** Some other process uses the same file table. */
  ghost predicate SharesFiles(k: Kernel, p: nat) {
    exists q :: q in k.procs && q != p && p in k.procs && k.procs[q] == k.procs[p]
  }

  // ---- effects ----

  function WithFiles(k: Kernel, p: nat, fs: Files): Kernel {
    if p in k.procs && k.procs[p] < |k.tables| then k.(tables := k.tables[k.procs[p] := fs]) else k
  }

  function Opened(k: Kernel, p: nat, fd: int, name: CString, cloexec: bool): Kernel {
    WithFiles(k, p, FilesOf(k, p)[fd := Slot(|k.names|, cloexec)]).(names := k.names + [name])
  }

  function Duplicated(k: Kernel, p: nat, orig: int, dup: int, cloexec: bool): Kernel {
    var fs := FilesOf(k, p);
    if orig in fs then WithFiles(k, p, fs[dup := Slot(fs[orig].desc, cloexec)]) else k
  }

  function Flagged(k: Kernel, p: nat, fd: int, cloexec: bool): Kernel {
    var fs := FilesOf(k, p);
    if fd in fs then WithFiles(k, p, fs[fd := fs[fd].(cloexec := cloexec)]) else k
  }

  function Closed(k: Kernel, p: nat, fd: int): Kernel {
    WithFiles(k, p, FilesOf(k, p) - {fd})
  }

  /** The process gets a table of its own, without the close-on-exec descriptors. */
  function Executed(k: Kernel, p: nat): Kernel {
    var fs := FilesOf(k, p);
    k.(tables := k.tables + [map fd | fd in fs && !fs[fd].cloexec :: fs[fd]], procs := k.procs[p := |k.tables|])
  }

  function Spawned(k: Kernel, p: nat, child: nat, share: bool): Kernel {
    if share && p in k.procs then k.(procs := k.procs[child := k.procs[p]])
    else k.(tables := k.tables + [FilesOf(k, p)], procs := k.procs[child := |k.tables|])
  }

  function Exited(k: Kernel, p: nat): Kernel {
    k.(procs := k.procs - {p})
  }

  function OpenedIf(k: Kernel, p: nat, rax: S64, name: CString, cloexec: bool): Kernel {
    if rax >= 0 then Opened(k, p, rax, name, cloexec) else k
  }

  /** The two descriptors that the kernel has written to memory. */
  function PairAt(mem: Memory, addr: int): (int, int) {
    if Readable(mem, addr, 4) && Readable(mem, addr + 4, 4) then (IntAt(mem, addr), IntAt(mem, addr + 4)) else (-1, -1)
  }

  function OpenedPair(k: Kernel, p: nat, c: Completed, addr: int, first: CString, second: CString,
                      cloexec: bool): Kernel
  {
    if c.rax != 0 then k
    else
      var (a, b) := PairAt(c.memAtReturn, addr);
      Opened(Opened(k, p, a, first, cloexec), p, b, second, cloexec)
  }

  /** The peer of a pseudoterminal is a description of its own, known as the slave of the other. */
  function PeerName(k: Kernel, fs: Files, master: int): CString {
    if master in fs && fs[master].desc < |k.names| then k.names[fs[master].desc] + " slave" else ""
  }

  /** Where the two ways to open a file have their path and their flags. */
  function PathArgument(at: bool, r: Regs): int { if at then r.rsi else r.rdi }

  function FlagsArgument(at: bool, r: Regs): int { if at then r.rdx else r.rsi }

  /** How long a path the kernel accepts, with its terminator. */
  const PATH_MAX := 4096

  /** The path of an open ends in time and can be read as far as that. */
  predicate HasPath(c: Completed) {
    var k, mem := Classify(c.sc), c.memAtCall;
    k.OpenKind? &&
    var base := PathArgument(k.at, c.regs);
    FirstNul(mem, base, PATH_MAX) < PATH_MAX && Readable(mem, base, FirstNul(mem, base, PATH_MAX))
  }

  /** What a file was opened as: all of the path. */
  function PathName(c: Completed): CString {
    if HasPath(c) then TraceeString(c.memAtCall, PathArgument(Classify(c.sc).at, c.regs), PATH_MAX) else ""
  }

  /** The tracer's name for an open is the path cut to what fits its buffer. */
  lemma OpenedNameIsCut(c: Completed)
    requires HasPath(c) && NameReadable(c)
    ensures var path := PathName(c);
            OpenedName(c) == if |path| < 256 then path else path[..255]
    ensures OpenedName(c) == PathName(c) <==> |PathName(c)| < 256
  {
    hide Succeeds;
    var mem, base := c.memAtCall, PathArgument(Classify(c.sc).at, c.regs);
    FirstNulWithin(mem, base, FILENAME_BUFF_SIZE, PATH_MAX);
  }

  /** Within a shorter limit the same terminator is found, or none. */
  lemma FirstNulWithin(mem: Memory, base: int, limit: nat, limit': nat)
    requires limit <= limit'
    ensures FirstNul(mem, base, limit) ==
            if FirstNul(mem, base, limit') < limit then FirstNul(mem, base, limit') else limit
  {
    var p, q := FirstNul(mem, base, limit), FirstNul(mem, base, limit');
    assert p < limit ==> NulAt(mem, base + p);
    assert q < limit' ==> NulAt(mem, base + q);
  }

  /** What a completed system call of process p did. */
  function Served(k: Kernel, p: nat, c: Completed): Kernel {
    var r, rax, fd := c.regs, c.rax, Low32(c.regs.rdi);
    match Classify(c.sc)
    case OpenKind(at) => OpenedIf(k, p, rax, PathName(c), HasBit(FlagsArgument(at, r), CLOEXEC))
    case CloseKind => Closed(k, p, fd)
    case PipeKind(pipe2) => OpenedPair(k, p, c, r.rdi, "pipe_r", "pipe_w", pipe2 && HasBit(r.rsi, CLOEXEC))
    case SocketKind => OpenedIf(k, p, rax, "socket", HasBit(r.rsi, CLOEXEC))
    case SocketPairKind => OpenedPair(k, p, c, r.r10, "socket", "socket", HasBit(r.rsi, CLOEXEC))
    case EventFdKind(eventfd2) => OpenedIf(k, p, rax, "eventfd", eventfd2 && HasBit(r.rsi, CLOEXEC))
    case EpollKind(create1) => OpenedIf(k, p, rax, "epoll", create1 && HasBit(r.rdi, CLOEXEC))
    case AcceptKind(accept4) => OpenedIf(k, p, rax, "accept", accept4 && HasBit(r.r10, CLOEXEC))
    case DupKind(dup3) =>
      if rax < 0 || rax == fd then k else Duplicated(k, p, fd, rax, dup3 && HasBit(r.rdx, CLOEXEC))
    case FcntlKind =>
      if rax < 0 then k
      else if Low32(r.rsi) == F_DUPFD then Duplicated(k, p, fd, rax, false)
      else if Low32(r.rsi) == F_DUPFD_CLOEXEC then Duplicated(k, p, fd, rax, true)
      else if Low32(r.rsi) == F_SETFD then Flagged(k, p, fd, HasBit(r.rdx, FD_CLOEXEC))
      else k
    case IoctlKind =>
      if rax < 0 then k
      else if Low32(r.rsi) == TIOCGPTPEER then
        Opened(k, p, rax, PeerName(k, FilesOf(k, p), fd), HasBit(r.rdx, CLOEXEC))
      else if Low32(r.rsi) == FIOCLEX then Flagged(k, p, fd, true)
      else if Low32(r.rsi) == FIONCLEX then Flagged(k, p, fd, false)
      else k
    case ExecveKind => if rax < 0 then k else Executed(k, p)
    case _ => k
  }

  // ---- what a kernel may answer ----

  /** A new descriptor, or an error number. */
  predicate NewOrError(fs: Files, rax: S64) {
    -4096 < rax < 0x8000_0000 && (rax >= 0 ==> rax !in fs)
  }

  predicate NewPairAt(fs: Files, mem: Memory, addr: int) {
    var (a, b) := PairAt(mem, addr);
    a >= 0 && b >= 0 && a != b && a !in fs && b !in fs
  }

  /** The result register, and the memory that pipe and socketpair write to, are as Linux
      documents them. */
  predicate Answers(fs: Files, c: Completed) {
    var r, rax, fd := c.regs, c.rax, Low32(c.regs.rdi);
    match Classify(c.sc)
    case OpenKind(_) => NewOrError(fs, rax) && (rax >= 0 ==> HasPath(c))
    case PipeKind(_) => rax == 0 ==> NewPairAt(fs, c.memAtReturn, r.rdi)
    case SocketKind => NewOrError(fs, rax)
    case SocketPairKind => rax == 0 ==> NewPairAt(fs, c.memAtReturn, r.r10)
    case EventFdKind(_) => NewOrError(fs, rax)
    case EpollKind(_) => NewOrError(fs, rax)
    case AcceptKind(_) => NewOrError(fs, rax)
    case DupKind(dup3) => -4096 < rax < 0x8000_0000 && (rax >= 0 ==> fd in fs && (dup3 ==> rax != fd))
    case FcntlKind =>
      if Low32(r.rsi) == F_DUPFD || Low32(r.rsi) == F_DUPFD_CLOEXEC then NewOrError(fs, rax) && (rax >= 0 ==> fd in fs)
      else if Low32(r.rsi) == F_SETFD then -4096 < rax <= 0 && (rax == 0 ==> fd in fs)
      else true
    case IoctlKind =>
      if Low32(r.rsi) == TIOCGPTPEER then NewOrError(fs, rax) && (rax >= 0 ==> fd in fs)
      else if Low32(r.rsi) == FIOCLEX || Low32(r.rsi) == FIONCLEX then rax >= 0 ==> fd in fs
      else true
    case _ => true
  }

  // ---- what stays ----

  /** Only the file table of p changed, and nothing was renamed. */
  ghost predicate OnlyFilesOf(k: Kernel, k': Kernel, p: nat) {
    && WellFormed(k') && k'.procs == k.procs && |k'.tables| == |k.tables| && k.names <= k'.names
    && forall i :: 0 <= i < |k.tables| && !(p in k.procs && k.procs[p] == i) ==> k'.tables[i] == k.tables[i]
  }

  lemma OpenedOnly(k: Kernel, p: nat, fd: int, name: CString, cloexec: bool)
    requires WellFormed(k) && p in k.procs && fd >= 0
    ensures OnlyFilesOf(k, Opened(k, p, fd, name, cloexec), p)
  {}

  lemma OpenedIfOnly(k: Kernel, p: nat, rax: S64, name: CString, cloexec: bool)
    requires WellFormed(k) && p in k.procs
    ensures OnlyFilesOf(k, OpenedIf(k, p, rax, name, cloexec), p)
  {
    hide Opened;
    if rax >= 0 {
      OpenedOnly(k, p, rax, name, cloexec);
    }
  }

  lemma OpenedPairOnly(k: Kernel, p: nat, c: Completed, addr: int, first: CString, second: CString, cloexec: bool)
    requires WellFormed(k) && p in k.procs && (c.rax == 0 ==> NewPairAt(FilesOf(k, p), c.memAtReturn, addr))
    ensures OnlyFilesOf(k, OpenedPair(k, p, c, addr, first, second, cloexec), p)
  {
    hide Opened, PairAt, FilesOf;
    if c.rax == 0 {
      var (a, b) := PairAt(c.memAtReturn, addr);
      OpenedOnly(k, p, a, first, cloexec);
      OpenedOnly(Opened(k, p, a, first, cloexec), p, b, second, cloexec);
    }
  }

  lemma DuplicatedOnly(k: Kernel, p: nat, orig: int, dup: int, cloexec: bool)
    requires WellFormed(k) && p in k.procs && dup >= 0
    ensures OnlyFilesOf(k, Duplicated(k, p, orig, dup, cloexec), p)
  {}

  lemma FlaggedOnly(k: Kernel, p: nat, fd: int, cloexec: bool)
    requires WellFormed(k) && p in k.procs
    ensures OnlyFilesOf(k, Flagged(k, p, fd, cloexec), p)
  {}

  lemma ClosedOnly(k: Kernel, p: nat, fd: int)
    requires WellFormed(k) && p in k.procs
    ensures OnlyFilesOf(k, Closed(k, p, fd), p)
  {}

  /** No system call but execve changes anything but the caller's file table. */
  lemma ServedOnly(k: Kernel, p: nat, c: Completed)
    requires WellFormed(k) && p in k.procs && Answers(FilesOf(k, p), c) && !Classify(c.sc).ExecveKind?
    ensures OnlyFilesOf(k, Served(k, p, c), p)
  {
    hide OpenedIf, OpenedPair, Opened, Duplicated, Flagged, Closed, Classify, FilesOf, HasBit, Low32, PathName;
    hide PeerName, PairAt;
    var rax, r, fd := c.rax, c.regs, Low32(c.regs.rdi);
    match Classify(c.sc)
    case OpenKind(at) => OpenedIfOnly(k, p, rax, PathName(c), HasBit(FlagsArgument(at, r), CLOEXEC));
    case SocketKind => OpenedIfOnly(k, p, rax, "socket", HasBit(r.rsi, CLOEXEC));
    case EventFdKind(two) => OpenedIfOnly(k, p, rax, "eventfd", two && HasBit(r.rsi, CLOEXEC));
    case EpollKind(one) => OpenedIfOnly(k, p, rax, "epoll", one && HasBit(r.rdi, CLOEXEC));
    case AcceptKind(four) => OpenedIfOnly(k, p, rax, "accept", four && HasBit(r.r10, CLOEXEC));
    case PipeKind(two) => OpenedPairOnly(k, p, c, r.rdi, "pipe_r", "pipe_w", two && HasBit(r.rsi, CLOEXEC));
    case SocketPairKind => OpenedPairOnly(k, p, c, r.r10, "socket", "socket", HasBit(r.rsi, CLOEXEC));
    case CloseKind => ClosedOnly(k, p, fd);
    case DupKind(dup3) =>
      if rax >= 0 { DuplicatedOnly(k, p, fd, rax, dup3 && HasBit(r.rdx, CLOEXEC)); }
    case FcntlKind =>
      if rax >= 0 {
        DuplicatedOnly(k, p, fd, rax, Low32(r.rsi) == F_DUPFD_CLOEXEC);
        FlaggedOnly(k, p, fd, HasBit(r.rdx, FD_CLOEXEC));
      }
    case IoctlKind =>
      if rax >= 0 {
        OpenedOnly(k, p, rax, PeerName(k, FilesOf(k, p), fd), HasBit(r.rdx, CLOEXEC));
        FlaggedOnly(k, p, fd, Low32(r.rsi) == FIOCLEX);
      }
    case _ =>
  }
}
