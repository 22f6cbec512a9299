/** What a system call does to a thread's tables, by its number in the x86-64 system call table
    and by the values that its arguments have in the Linux interface. */
module Numbers {
  import opened FdTables
  import opened HandlerLaws
  import opened Handlers
  import opened ReadStrings
  import opened Syscalls
  import opened Words
  import Calls = SyscallStats
  import Files = FileStats

  const READS := {0, 17, 19, 295, 327}      // read, pread64, readv, preadv, preadv2
  const WRITES := {1, 18, 20, 296, 328}     // write, pwrite64, writev, pwritev, pwritev2
  const FILE_CALLS := READS + WRITES + {2, 3, 22, 41, 43, 53, 213, 257, 284, 288, 290, 291, 293}

  /** All that the return of a call does, apart from counting it. */
  predicate Does(c: Completed, t: Table, edits: seq<Edit>, charges: seq<Files.Charge>) {
    NameReadable(c) && EditsOf(c) == edits && ChargesOf(c, t) == charges
  }

  lemma TransfersByNumber(c: Completed, t: Table)
    ensures var fd, ns := Low32(c.regs.rdi), ElapsedOf(c);
            && (c.sc in READS ==> Does(c, t, [], [Files.Charge(NameFor(t, fd), Files.Read(ns, c.rax))]))
            && (c.sc in WRITES ==> Does(c, t, [], [Files.Charge(NameFor(t, fd), Files.Written(ns, c.rax))]))
            && (c.sc == 3 ==> Does(c, t, [Drop(fd)], [Files.Charge(NameFor(t, fd), Files.Closed(ns))]))
  {
    hide Low32, ElapsedOf, NameFor;
  }

  /** A new descriptor for what is opened, if the call succeeds; an open is charged in any case. */
  predicate Makes(c: Completed, t: Table, name: CString, cloexec: bool) {
    Does(c, t, if c.rax >= 0 then [Put(Low32(c.rax), name, cloexec)] else [],
         [Files.Charge(name, Files.Opened(ElapsedOf(c)))])
  }

  /** The buffer for names has 256 characters, and the call can be handled if the name can be read. */
  predicate OpensPath(c: Completed, t: Table, base: int, flags: int) {
    var mem := c.memAtCall;
    && (NameReadable(c) <==> Succeeds(mem, base, 256))
    && (NameReadable(c) && Readable(mem, base, FirstNul(mem, base, 256)) ==>
         Makes(c, t, TraceeString(mem, base, 256), HasBit(flags, 0x80000)))
  }

  lemma OpensByNumber(c: Completed, t: Table)
    ensures c.sc == 2 ==> OpensPath(c, t, c.regs.rdi, c.regs.rsi)       // open
    ensures c.sc == 257 ==> OpensPath(c, t, c.regs.rsi, c.regs.rdx)     // openat
    ensures c.sc == 41 ==> Makes(c, t, "socket", HasBit(c.regs.rsi, 0x80000))
    ensures c.sc == 43 ==> Makes(c, t, "accept", false)
    ensures c.sc == 288 ==> Makes(c, t, "accept", HasBit(c.regs.r10, 0x80000))
    ensures c.sc == 213 ==> Makes(c, t, "epoll", false)
    ensures c.sc == 291 ==> Makes(c, t, "epoll", HasBit(c.regs.rdi, 0x80000))
    ensures c.sc == 284 ==> Makes(c, t, "eventfd", false)
    ensures c.sc == 290 ==> Makes(c, t, "eventfd", HasBit(c.regs.rsi, 0x80000))
  {
    hide Low32, ElapsedOf, HasBit, Succeeds, TraceeString;
  }

  /** Two new descriptors, the numbers of which are in memory, and half the time for each; or
      nothing if the call fails. */
  predicate MakesPair(c: Completed, t: Table, addr: int, first: CString, second: CString, cloexec: bool) {
    var mem, half := c.memAtReturn, ElapsedOf(c) / 2;
    if c.rax == 0 then
      Does(c, t, [Put(PeekInt(mem, addr), first, cloexec), Put(PeekInt(mem, addr + 4), second, cloexec)],
           [Files.Charge(first, Files.Opened(half)), Files.Charge(second, Files.Opened(half))])
    else Does(c, t, [], [])
  }

  lemma PairsByNumber(c: Completed, t: Table)
    ensures c.sc == 22 ==> MakesPair(c, t, c.regs.rdi, "pipe_r", "pipe_w", false)
    ensures c.sc == 293 ==> MakesPair(c, t, c.regs.rdi, "pipe_r", "pipe_w", HasBit(c.regs.rsi, 0x80000))
    ensures c.sc == 53 ==> MakesPair(c, t, c.regs.r10, "socket", "socket", false)
  {
    hide Low32, ElapsedOf, HasBit, PeekInt;
  }

  /** dup, dup2 and dup3. */
  lemma DupsByNumber(c: Completed, t: Table)
    requires c.sc in {32, 33, 292}
    ensures var fd, ret := Low32(c.regs.rdi), Low32(c.rax);
            Does(c, t, if fd >= 0 && fd != ret then [Dup(fd, ret, false, false)] else [], [])
  {
    hide Low32, ElapsedOf, HasBit;
  }

  /** fcntl duplicates with two commands, by one of them with the flag, and sets the flag with a third. */
  lemma FcntlByNumber(c: Completed, t: Table)
    requires c.sc == 72
    ensures var fd, command, ret := Low32(c.regs.rdi), Low32(c.regs.rsi), Low32(c.rax);
            Does(c, t, if ret == -1 then []
                       else if command == 0 then [Dup(fd, ret, false, false)]
                       else if command == 1030 then [Dup(fd, ret, true, false)]
                       else if command == 2 then [SetFlag(fd, HasBit(c.regs.rdx, 1))]
                       else [], [])
  {
    hide Low32, ElapsedOf, HasBit;
  }

  /** ioctl makes the other end of a terminal pair with one request, execve drops what is
      flagged, and nothing else does anything. */
  lemma OthersByNumber(c: Completed, t: Table)
    requires c.sc !in FILE_CALLS && c.sc !in {32, 33, 72, 292}
    ensures var fd, request, ret := Low32(c.regs.rdi), Low32(c.regs.rsi), Low32(c.rax);
            Does(c, t, if c.sc == 16 && request == 0x5441 then [Dup(fd, ret, false, true)]
                       else if c.sc == 59 then [Strip]
                       else [], [])
  {
    hide Low32, ElapsedOf, HasBit, Classify;
    OtherKinds(c.sc);
  }

  lemma OtherKinds(sc: int)
    requires sc !in FILE_CALLS && sc !in {32, 33, 72, 292}
    ensures Classify(sc) == if sc == 16 then IoctlKind else if sc == 59 then ExecveKind else OtherKind
  {}

  /** The calls that are counted instead of charged. */
  lemma CountedByNumber(sc: int)
    ensures Unconsidered(Classify(sc)) <==> sc !in FILE_CALLS
  {}

  // ---- bits ----

  /** The flags as bits: the lowest, the eleventh and the twentieth. */
  lemma BitsMeanFlags(x: int)
    ensures HasBit(x, FD_CLOEXEC) <==> x % 2 >= 1
    ensures HasBit(x, CLONE_FILES) <==> x % 0x800 >= 0x400
    ensures HasBit(x, CLOEXEC) <==> x % 0x10_0000 >= 0x8_0000
  {
    CloneFilesBit(x, x / 0x800, x % 0x800);
    CloexecBit(x, x / 0x10_0000, x % 0x10_0000);
  }

  lemma CloneFilesBit(x: int, q: int, r: int)
    requires x == q * 0x800 + r && 0 <= r < 0x800
    ensures HasBit(x, CLONE_FILES) <==> r >= 0x400
  {
    assert x / 0x400 == 2 * q + if r >= 0x400 then 1 else 0;
  }

  lemma CloexecBit(x: int, q: int, r: int)
    requires x == q * 0x10_0000 + r && 0 <= r < 0x10_0000
    ensures HasBit(x, CLOEXEC) <==> r >= 0x8_0000
  {
    assert x / 0x8_0000 == 2 * q + if r >= 0x8_0000 then 1 else 0;
  }

  // ---- what a trace leaves in the counters ----

  /** The calls with the given number, in order. */
  function WithNumber(cs: seq<Completed>, sc: int): seq<Completed> {
    if cs == [] then []
    else
      var init, last := WithNumber(cs[..|cs| - 1], sc), cs[|cs| - 1];
      if last.sc == sc then init + [last] else init
  }

  function TimeOf(cs: seq<Completed>): nat {
    if cs == [] then 0 else TimeOf(cs[..|cs| - 1]) + ElapsedOf(cs[|cs| - 1])
  }

  /** After any trace that the tracer survives, the counters of a system call that is not one
      of a file are the number of its calls and the time spent in them, up to wrap-around, and
      there are none for the calls of files. */
  lemma CountersOfTrace(t0: Table, cs: seq<Completed>, sc: int)
    requires Collect(t0, cs).Some?
    ensures var calls, made := Collect(t0, cs).value.calls, WithNumber(cs, sc);
            && (sc in calls <==> sc !in FILE_CALLS && made != [])
            && (sc in calls ==> calls[sc] == Calls.SyscallStat(|made| % 0x1_0000_0000_0000_0000,
                                                               TimeOf(made) % 0x1_0000_0000_0000_0000))
  {
    hide Collect, Calls.TableOf, FILE_CALLS, WithNumber, TimeOf, CallsIn, Calls.Of, Calls.SumNs;
    CollectedStatistics(t0, cs);
    Calls.CountersExact(CallsIn(cs), sc);
    CountedOfTrace(cs, sc);
  }

  lemma NoneYet(sc: int)
    ensures Calls.Of([], sc) == [] && Calls.SumNs([]) == 0
  {}

  lemma {:induction false} CountedOfTrace(cs: seq<Completed>, sc: int)
    ensures var counted, made := Calls.Of(CallsIn(cs), sc), WithNumber(cs, sc);
            if sc in FILE_CALLS then counted == []
            else |counted| == |made| && Calls.SumNs(counted) == TimeOf(made)
  {
    hide Classify, Unconsidered, ElapsedOf, FILE_CALLS, Calls.Of, Calls.SumNs;
    NoneYet(sc);
    if cs != [] {
      var init, last := cs[..|cs| - 1], cs[|cs| - 1];
      CountedOfTrace(init, sc);
      CountedByNumber(last.sc);
      var call := Calls.Call(last.sc, ElapsedOf(last));
      Calls.OfOneMore(CallsIn(init), call, sc);
      if Unconsidered(Classify(last.sc)) {
        assert CallsIn(cs) == CallsIn(init) + [call];
      } else {
        assert CallsIn(cs) == CallsIn(init) + [] == CallsIn(init);
      }
    }
  }
}
