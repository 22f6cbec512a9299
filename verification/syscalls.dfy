/** System calls as the tracer sees them: a number, register contents and memory at the
    call, and the result register and memory at the return. */
module Syscalls {
  import opened ReadStrings
  import opened Words

  /** How the two dispatchers tell system calls apart. */
  datatype Kind =
    | OpenKind(at: bool)
    | CloseKind
    | ReadKind
    | WriteKind
    | PipeKind(pipe2: bool)
    | SocketKind
    | SocketPairKind
    | EventFdKind(eventfd2: bool)
    | EpollKind(create1: bool)
    | AcceptKind(accept4: bool)
    | DupKind(dup3: bool)
    | FcntlKind
    | IoctlKind
    | ExecveKind
    | OtherKind

  /** The numbers of the x86-64 system call table. */
  function Classify(sc: int): Kind {
    if sc == 2 then OpenKind(false)
    else if sc == 257 then OpenKind(true)
    else if sc == 3 then CloseKind
    else if sc in {0, 19, 295, 327, 17} then ReadKind
    else if sc in {1, 20, 296, 328, 18} then WriteKind
    else if sc == 22 then PipeKind(false)
    else if sc == 293 then PipeKind(true)
    else if sc == 41 then SocketKind
    else if sc == 53 then SocketPairKind
    else if sc == 284 then EventFdKind(false)
    else if sc == 290 then EventFdKind(true)
    else if sc == 213 then EpollKind(false)
    else if sc == 291 then EpollKind(true)
    else if sc == 43 then AcceptKind(false)
    else if sc == 288 then AcceptKind(true)
    else if sc == 32 || sc == 33 then DupKind(false)
    else if sc == 292 then DupKind(true)
    else if sc == 72 then FcntlKind
    else if sc == 16 then IoctlKind
    else if sc == 59 then ExecveKind
    else OtherKind
  }

  const CLOEXEC := 0x80000       // O_CLOEXEC, SOCK_CLOEXEC, EFD_CLOEXEC and EPOLL_CLOEXEC
  const FD_CLOEXEC := 1
  const F_DUPFD := 0
  const F_DUPFD_CLOEXEC := 1030
  const F_SETFD := 2
  const TIOCGPTPEER := 0x5441
  const FIONCLEX := 0x5450
  const FIOCLEX := 0x5451
  const CLONE_FILES := 0x400

  const NANOS := 1_000_000_000

  datatype Regs = Regs(rdi: int, rsi: int, rdx: int, r10: int)

  datatype Time = Time(sec: int, nsec: int)

  function Nanoseconds(t: Time): U64 {
    Wrap(t.sec * NANOS + t.nsec)
  }

  function Elapsed(start: Time, end: Time): U64 {
    Wrap(Nanoseconds(end) - Nanoseconds(start))
  }

  /** The elapsed time is right even if one of the two readings wraps around. */
  lemma ElapsedIsDifference(start: Time, end: Time)
    requires 0 <= (end.sec - start.sec) * 1_000_000_000 + end.nsec - start.nsec < 0x1_0000_0000_0000_0000
    ensures Elapsed(start, end) == (end.sec - start.sec) * 1_000_000_000 + end.nsec - start.nsec
  {
    var s, e := start.sec * NANOS + start.nsec, end.sec * NANOS + end.nsec;
    var q := s / TWO64;
    var n: int := Nanoseconds(start);
    assert n == s - q * TWO64;
    WrapAdd(e, -n);
    WrapShift(e - s, q);
    WrapSmall(e - s);
  }

  /** One completed system call. */
  datatype Completed = Completed(
    sc: int,
    regs: Regs,
    memAtCall: Memory,
    start: Time,
    rax: S64,
    memAtReturn: Memory,
    end: Time)

  /** The int that starts at an address, from its four bytes. */
  function IntAt(mem: Memory, addr: int): int
    requires Readable(mem, addr, 4)
  {
    Low32((mem[addr] as int) + 0x100 * (mem[addr + 1] as int) + 0x1_0000 * (mem[addr + 2] as int)
          + 0x100_0000 * (mem[addr + 3] as int))
  }

  /** What the tracer reads for an int: it reads a whole word and keeps the lower half;
      a failed access reads as -1 and is not noticed. */
  function PeekInt(mem: Memory, addr: int): int {
    match Peek(mem, addr)
    case None => -1
    case Some(w) =>
      Low32((w[0] as int) + 0x100 * (w[1] as int) + 0x1_0000 * (w[2] as int) + 0x100_0000 * (w[3] as int))
  }

  /** The tracer reads an int right if it is not among the last bytes that can be read. */
  lemma PeekIntReads(mem: Memory, addr: int)
    requires Readable(mem, addr, 4)
    ensures PeekInt(mem, addr) == if Readable(mem, addr, WORD) then IntAt(mem, addr) else -1
  {
    hide Low32;
  }

  /** Truncating a register to an int keeps its lower flags. */
  lemma Low32KeepsFlags(x: int)
    ensures HasBit(Low32(x), CLOEXEC) == HasBit(x, CLOEXEC)
    ensures HasBit(Low32(x), FD_CLOEXEC) == HasBit(x, FD_CLOEXEC)
    ensures HasBit(Low32(x), CLONE_FILES) == HasBit(x, CLONE_FILES)
  {
    var y, q := TruncationStep(x);
    hide Low32, HasBit;
    assert x == y + 2 * (q * 0x1000) * CLOEXEC;
    BitAway(y, q * 0x1000);
    assert x == y + 2 * (q * 0x8000_0000) * FD_CLOEXEC;
    LowestBitAway(y, q * 0x8000_0000);
    assert x == y + 2 * (q * 0x20_0000) * CLONE_FILES;
    CloneBitAway(y, q * 0x20_0000);
  }

  lemma TruncationStep(x: int) returns (y: int, q: int)
    ensures y == Low32(x) && x == y + q * 0x1_0000_0000
  {
    y, q := Low32(x), x / TWO32 + (if x % TWO32 < 0x8000_0000 then 0 else 1);
  }

  /** Adding a multiple of twice a bit's weight leaves the bit alone. */
  lemma BitAway(y: int, k: int)
    ensures HasBit(y + 2 * k * CLOEXEC, CLOEXEC) == HasBit(y, CLOEXEC)
  {
    assert (y + 2 * k * CLOEXEC) / CLOEXEC == y / CLOEXEC + 2 * k;
  }

  lemma LowestBitAway(y: int, k: int)
    ensures HasBit(y + 2 * k * FD_CLOEXEC, FD_CLOEXEC) == HasBit(y, FD_CLOEXEC)
  {
    assert (y + 2 * k * FD_CLOEXEC) / FD_CLOEXEC == y / FD_CLOEXEC + 2 * k;
  }

  lemma CloneBitAway(y: int, k: int)
    ensures HasBit(y + 2 * k * CLONE_FILES, CLONE_FILES) == HasBit(y, CLONE_FILES)
  {
    assert (y + 2 * k * CLONE_FILES) / CLONE_FILES == y / CLONE_FILES + 2 * k;
  }
}
