/** What a thread's handlers collect over a whole trace: no leftovers from earlier system
    calls, the right names, every call charged once, and no time lost but for halving. */
module HandlerLaws {
  import opened FdHistory
  import opened FdTables
  import opened Handlers
  import opened Maps
  import opened Options
  import opened ReadStrings
  import opened Syscalls
  import opened Words
  import Calls = SyscallStats
  import Files = FileStats

  // ---- what a completed system call means, from its registers alone ----

  predicate NameReadable(c: Completed) {
    var k := Classify(c.sc);
    k.OpenKind? ==> Succeeds(c.memAtCall, NameRegister(k.at, c.regs), FILENAME_BUFF_SIZE)
  }

  /** The filename of an open, cut to the buffer. */
  function OpenedName(c: Completed): CString
    requires Classify(c.sc).OpenKind? && NameReadable(c)
  {
    var base := NameRegister(Classify(c.sc).at, c.regs);
    FilledHoldsString(c.memAtCall, base, seq(FILENAME_BUFF_SIZE, _ => '\0'), FILENAME_BUFF_SIZE);
    TraceeString(c.memAtCall, base, FILENAME_BUFF_SIZE)
  }

  function EditsOf(c: Completed): seq<Edit>
    requires NameReadable(c)
  {
    var r, rax, mem := c.regs, c.rax, c.memAtReturn;
    match Classify(c.sc)
    case OpenKind(at) => NewFd(rax, OpenedName(c), HasBit(FlagsRegister(at, r), CLOEXEC))
    case CloseKind => [Drop(Low32(r.rdi))]
    case ReadKind => []
    case WriteKind => []
    case PipeKind(pipe2) => NewPair(rax, mem, r.rdi, PIPE_R, PIPE_W, pipe2 && HasBit(r.rsi, CLOEXEC))
    case SocketKind => NewFd(rax, SOCKET, HasBit(r.rsi, CLOEXEC))
    case SocketPairKind => NewPair(rax, mem, r.r10, SOCKET, SOCKET, false)
    case EventFdKind(eventfd2) => NewFd(rax, EVENTFD, eventfd2 && HasBit(r.rsi, CLOEXEC))
    case EpollKind(create1) => NewFd(rax, EPOLL, create1 && HasBit(r.rdi, CLOEXEC))
    case AcceptKind(accept4) => NewFd(rax, ACCEPT, accept4 && HasBit(r.r10, CLOEXEC))
    case DupKind(_) =>
      if Low32(r.rdi) >= 0 && Low32(r.rdi) != Low32(rax) then [Dup(Low32(r.rdi), Low32(rax), false, false)] else []
    case FcntlKind =>
      if Low32(rax) == -1 then []
      else if Low32(r.rsi) == F_DUPFD then [Dup(Low32(r.rdi), Low32(rax), false, false)]
      else if Low32(r.rsi) == F_DUPFD_CLOEXEC then [Dup(Low32(r.rdi), Low32(rax), true, false)]
      else if Low32(r.rsi) == F_SETFD then [SetFlag(Low32(r.rdi), HasBit(r.rdx, FD_CLOEXEC))]
      else []
    case IoctlKind =>
      if Low32(r.rsi) == TIOCGPTPEER then [Dup(Low32(r.rdi), Low32(rax), false, true)] else []
    case ExecveKind => [Strip]
    case OtherKind => []
  }

  function ElapsedOf(c: Completed): U64 {
    Elapsed(c.start, c.end)
  }

  function ChargesOf(c: Completed, t: Table): seq<Files.Charge>
    requires NameReadable(c)
  {
    var fd, ns := Low32(c.regs.rdi), ElapsedOf(c);
    match Classify(c.sc)
    case OpenKind(_) => [Files.Charge(OpenedName(c), Files.Opened(ns))]
    case CloseKind => [Files.Charge(NameFor(t, fd), Files.Closed(ns))]
    case ReadKind => [Files.Charge(NameFor(t, fd), Files.Read(ns, c.rax))]
    case WriteKind => [Files.Charge(NameFor(t, fd), Files.Written(ns, c.rax))]
    case PipeKind(_) => PairCharges(c.rax, PIPE_R, PIPE_W, ns)
    case SocketKind => [Files.Charge(SOCKET, Files.Opened(ns))]
    case SocketPairKind => PairCharges(c.rax, SOCKET, SOCKET, ns)
    case EventFdKind(_) => [Files.Charge(EVENTFD, Files.Opened(ns))]
    case EpollKind(_) => [Files.Charge(EPOLL, Files.Opened(ns))]
    case AcceptKind(_) => [Files.Charge(ACCEPT, Files.Opened(ns))]
    case _ => []
  }

  // ---- no stale temporaries ----

  function CallOf(sv: Saved, c: Completed): Option<Saved>
    requires BufferSized(sv)
  {
    AfterCall(sv, Classify(c.sc), c.regs, c.memAtCall, c.start)
  }

  /** The tracer gives up at the call exactly if it is an open whose name cannot be read. */
  lemma GivesUpExactly(sv: Saved, c: Completed)
    requires BufferSized(sv)
    ensures CallOf(sv, c).Some? <==> NameReadable(c)
    ensures CallOf(sv, c).Some? ==> BufferSized(CallOf(sv, c).value)
  {}

  /** Whatever was saved before, what the return handler uses was written by the call
      handler of the same system call. */
  lemma HandlersFollowRegisters(sv: Saved, c: Completed)
    requires BufferSized(sv) && NameReadable(c)
    ensures CallOf(sv, c).Some?
    ensures var sv', k := CallOf(sv, c).value, Classify(c.sc);
            && EditsAfter(sv', k, c.rax, c.memAtReturn) == EditsOf(c)
            && Elapsed(sv'.start, c.end) == ElapsedOf(c)
            && forall t :: ChargesAfter(sv', k, t, c.rax, ElapsedOf(c)) == ChargesOf(c, t)
  {
    hide HasBit, Low32, Filled, TraceeString, CStr, Succeeds, Classify, Elapsed;
    var r, k := c.regs, Classify(c.sc);
    Low32KeepsFlags(r.rdi);
    Low32KeepsFlags(r.rsi);
    Low32KeepsFlags(r.rdx);
    Low32KeepsFlags(r.r10);
    if k.OpenKind? {
      FilledHoldsString(c.memAtCall, NameRegister(k.at, r), sv.buffer, FILENAME_BUFF_SIZE);
    }
  }

  /** Two threads that differ in nothing but what they have saved handle a call alike. */
  lemma NoStaleTemporaries(sv1: Saved, sv2: Saved, c: Completed, t: Table)
    requires BufferSized(sv1) && BufferSized(sv2)
    ensures CallOf(sv1, c).Some? <==> CallOf(sv2, c).Some?
    ensures CallOf(sv1, c).Some? ==>
      var s1, s2, k := CallOf(sv1, c).value, CallOf(sv2, c).value, Classify(c.sc);
      && EditsAfter(s1, k, c.rax, c.memAtReturn) == EditsAfter(s2, k, c.rax, c.memAtReturn)
      && ChargesAfter(s1, k, t, c.rax, Elapsed(s1.start, c.end))
         == ChargesAfter(s2, k, t, c.rax, Elapsed(s2.start, c.end))
  {
    hide EditsAfter, ChargesAfter, EditsOf, ChargesOf, Elapsed, NameReadable, CallOf;
    GivesUpExactly(sv1, c);
    GivesUpExactly(sv2, c);
    if NameReadable(c) {
      HandlersFollowRegisters(sv1, c);
      HandlersFollowRegisters(sv2, c);
    }
  }

  // ---- traces ----

  /** What one thread has collected. */
  datatype Collected = Collected(table: Table, files: Files.FileTable, calls: Calls.SyscallTable)

  /** None if the tracer gave up on a filename or looked up a descriptor it does not know. */
  function Collect(t0: Table, cs: seq<Completed>): Option<Collected> {
    if cs == [] then Some(Collected(t0, Files.FRESH, map[]))
    else
      match Collect(t0, cs[..|cs| - 1])
      case None => None
      case Some(st) => Step(st, cs[|cs| - 1])
  }

  function Step(st: Collected, c: Completed): Option<Collected> {
    if !NameReadable(c) then None
    else
      match After(st.table, EditsOf(c))
      case None => None
      case Some(table) =>
        Some(Collected(table, ChargedAll(st.files, ChargesOf(c, st.table)),
                       CountedIf(st.calls, Classify(c.sc), c.sc, ElapsedOf(c))))
  }

  /** All charges of a trace. */
  function ChargesIn(t0: Table, cs: seq<Completed>): seq<Files.Charge>
    requires Collect(t0, cs).Some?
  {
    if cs == [] then []
    else
      var init, last := cs[..|cs| - 1], cs[|cs| - 1];
      ChargesIn(t0, init) + ChargesOf(last, Collect(t0, init).value.table)
  }

  /** All unconsidered calls of a trace. */
  function CallsIn(cs: seq<Completed>): seq<Calls.Call> {
    if cs == [] then []
    else
      var last := cs[|cs| - 1];
      CallsIn(cs[..|cs| - 1]) + if Unconsidered(Classify(last.sc)) then [Calls.Call(last.sc, ElapsedOf(last))] else []
  }

  lemma {:induction false} ChargedAllConcat(cs: seq<Files.Charge>, cs': seq<Files.Charge>)
    ensures ChargedAll(Files.TableOf(cs), cs') == Files.TableOf(cs + cs')
  {
    hide Files.Charged;
    if cs' == [] {
      assert cs + cs' == cs;
    } else {
      ChargedAllConcat(cs, cs'[..|cs'| - 1]);
      assert (cs + cs')[..|cs + cs'| - 1] == cs + cs'[..|cs'| - 1];
    }
  }

  lemma CountedNext(cs: seq<Calls.Call>, c: Calls.Call)
    ensures Calls.Counted(Calls.TableOf(cs), c) == Calls.TableOf(cs + [c])
  {
    hide Calls.Counted;
    assert (cs + [c])[..|cs + [c]| - 1] == cs;
  }

  /** A thread's tables are those of the sequences of its charges and its unconsidered calls,
      which is all that merging the threads' tables depends on. */
  lemma {:induction false} CollectedStatistics(t0: Table, cs: seq<Completed>)
    requires Collect(t0, cs).Some?
    ensures Collect(t0, cs).value.files == Files.TableOf(ChargesIn(t0, cs))
    ensures Collect(t0, cs).value.calls == Calls.TableOf(CallsIn(cs))
  {
    hide ChargesOf, EditsOf, After, Calls.TableOf, Files.TableOf, Calls.Counted, ChargedAll, NameReadable;
    hide Classify, Unconsidered, ElapsedOf;
    if cs == [] {
      NothingCollected();
    } else {
      var init, last := cs[..|cs| - 1], cs[|cs| - 1];
      CollectedStatistics(t0, init);
      ChargedAllConcat(ChargesIn(t0, init), ChargesOf(last, Collect(t0, init).value.table));
      CountedNext(CallsIn(init), Calls.Call(last.sc, ElapsedOf(last)));
      assert CallsIn(init) + [] == CallsIn(init);
    }
  }

  lemma NothingCollected()
    ensures Files.TableOf([]) == Files.FRESH && Calls.TableOf([]) == map[]
  {}

  // ---- names ----

  /** All edits of a trace. */
  function History(cs: seq<Completed>): seq<Edit>
    requires forall c :: c in cs ==> NameReadable(c)
  {
    if cs == [] then [] else History(cs[..|cs| - 1]) + EditsOf(cs[|cs| - 1])
  }

  lemma {:induction false} AfterConcat(t: Table, es: seq<Edit>, es': seq<Edit>)
    ensures After(t, es + es') == match After(t, es) case None => None case Some(u) => After(u, es')
  {
    if es' == [] {
      assert es + es' == es;
    } else {
      var init := es'[..|es'| - 1];
      assert (es + es')[..|es + es'| - 1] == es + init;
      AfterConcat(t, es, init);
    }
  }

  lemma {:induction false} CollectedTable(t0: Table, cs: seq<Completed>)
    requires Collect(t0, cs).Some?
    ensures forall c :: c in cs ==> NameReadable(c)
    ensures After(t0, History(cs)) == Some(Collect(t0, cs).value.table)
  {
    hide EditsOf, ChargesOf, NameReadable, ChargedAll, CountedIf;
    if cs != [] {
      var init, last := cs[..|cs| - 1], cs[|cs| - 1];
      CollectedTable(t0, init);
      assert cs == init + [last];
      AfterConcat(t0, History(init), EditsOf(last));
    }
  }

  /** A close, read or write is charged once, as what it is and with its result, under the name
      that a walk back through the history of the table finds for its descriptor, whoever made
      the edits in it, and under "NULL" if that finds none. */
  lemma ChargedByHistory(t0: Table, es: seq<Edit>, t: Table, c: Completed)
    requires After(t0, es) == Some(t)
    requires var k := Classify(c.sc); k.CloseKind? || k.ReadKind? || k.WriteKind?
    ensures NameReadable(c)
    ensures var found := Resolve(t0, es, Low32(c.regs.rdi));
            var charges := ChargesOf(c, t);
            && |charges| == 1
            && charges[0].name == (if found.Some? then found.value.filename else "NULL")
            && charges[0].op == (match Classify(c.sc)
                                 case CloseKind => Files.Closed(ElapsedOf(c))
                                 case ReadKind => Files.Read(ElapsedOf(c), c.rax)
                                 case _ => Files.Written(ElapsedOf(c), c.rax))
  {
    hide Resolve, Low32, ElapsedOf, After;
    TableIndexesHistory(t0, es, Low32(c.regs.rdi));
  }

  lemma EditsHaveShortNames(c: Completed)
    requires NameReadable(c)
    ensures forall e :: e in EditsOf(c) && e.Put? ==> |e.name| < FILENAME_BUFF_SIZE
  {
    hide Succeeds, Low32, HasBit, PeekInt;
  }

  lemma {:induction false} HistoryHasShortNames(cs: seq<Completed>)
    requires forall c :: c in cs ==> NameReadable(c)
    ensures forall e :: e in History(cs) && e.Put? ==> |e.name| < FILENAME_BUFF_SIZE
  {
    hide EditsOf, NameReadable;
    if cs != [] {
      HistoryHasShortNames(cs[..|cs| - 1]);
      EditsHaveShortNames(cs[|cs| - 1]);
    }
  }

  /** No name in the descriptor table ever outgrows the filename buffer. */
  lemma NamesAlwaysFit(t0: Table, cs: seq<Completed>)
    requires NamesFit(t0) && Collect(t0, cs).Some?
    ensures NamesFit(Collect(t0, cs).value.table)
  {
    hide Collect, After, History, NameReadable, NamesFit;
    CollectedTable(t0, cs);
    HistoryHasShortNames(cs);
    NamesStayShortThroughout(t0, History(cs));
  }

  // ---- time ----

  /** Every completed call is charged to files or counted as unconsidered, never both; a
      pipe or socketpair is charged twice if it succeeds and not at all if it fails. */
  lemma ChargedToOneSide(c: Completed, t: Table)
    requires NameReadable(c)
    ensures var k := Classify(c.sc);
            |ChargesOf(c, t)| == if Unconsidered(k) then 0
                                 else if k.PipeKind? || k.SocketPairKind? then (if c.rax == 0 then 2 else 0)
                                 else 1
  {
    hide Low32, ElapsedOf, NameReadable;
  }

  predicate Opens(k: Kind) {
    k.OpenKind? || k.PipeKind? || k.SocketKind? || k.SocketPairKind? || k.EventFdKind? || k.EpollKind? || k.AcceptKind?
  }

  /** Every call that opens something is charged as an open, and no other call is; closes
      likewise. The charges of a call share its time evenly. Only a pipe or socketpair is
      charged differently if it fails. */
  lemma ChargedAsWhatItIs(c: Completed, t: Table, rax: S64)
    requires NameReadable(c)
    ensures forall ch :: ch in ChargesOf(c, t) ==>
      && (ch.op.Opened? <==> Opens(Classify(c.sc)))
      && (ch.op.Closed? <==> Classify(c.sc).CloseKind?)
      && OpNs(ch.op) == ElapsedOf(c) / |ChargesOf(c, t)|
    ensures var k := Classify(c.sc);
            Opens(k) && !k.PipeKind? && !k.SocketPairKind? ==> ChargesOf(c.(rax := rax), t) == ChargesOf(c, t)
  {
    hide Low32, Elapsed, Succeeds, TraceeString, Classify;
  }

  /** How many charges a trace has beyond one for every call: one more for every pipe or
      socketpair that succeeds, one less for every one that fails. */
  function PairBalance(cs: seq<Completed>): int {
    if cs == [] then 0
    else
      var k := Classify(cs[|cs| - 1].sc);
      PairBalance(cs[..|cs| - 1])
      + if !k.PipeKind? && !k.SocketPairKind? then 0 else if cs[|cs| - 1].rax == 0 then 1 else -1
  }

  /** No call of a trace is lost or charged to both sides. */
  lemma {:induction false} CallsAreConserved(t0: Table, cs: seq<Completed>)
    requires Collect(t0, cs).Some?
    ensures |ChargesIn(t0, cs)| + |CallsIn(cs)| == |cs| + PairBalance(cs)
  {
    hide ChargesOf, EditsOf, After, ChargedAll, CountedIf, NameReadable, Classify, ElapsedOf;
    if cs != [] {
      CallsAreConserved(t0, cs[..|cs| - 1]);
      ChargedToOneSide(cs[|cs| - 1], Collect(t0, cs[..|cs| - 1]).value.table);
    }
  }

  function OpNs(op: Files.Op): U64 {
    match op
    case Opened(ns) => ns
    case Closed(ns) => ns
    case Read(ns, _) => ns
    case Written(ns, _) => ns
  }

  function StatNs(s: Files.FileStat): nat {
    s.open.totalNs + s.close.totalNs + s.read.totalNs + s.write.totalNs
  }

  function NsByFile(t: Files.FileTable): map<string, int> {
    map n | n in t :: StatNs(t[n])
  }

  function NsByCall(t: Calls.SyscallTable): map<int, int> {
    map k | k in t :: t[k].totalNs
  }

  /** All time charged to files. */
  ghost function FileTime(t: Files.FileTable): int {
    Total(NsByFile(t))
  }

  /** All time spent in unconsidered calls. */
  ghost function CallTime(t: Calls.SyscallTable): int {
    Total(NsByCall(t))
  }

  lemma UpdatedTime(s: Files.FileStat, op: Files.Op, total: int)
    ensures Wrap(total - StatNs(s) + StatNs(Files.Updated(s, op))) == Wrap(total + OpNs(op))
  {
    hide Files.Bumped, Files.RateOf, Wrap;
    var old_ := match op
      case Opened(_) => s.open.totalNs
      case Closed(_) => s.close.totalNs
      case Read(_, _) => s.read.totalNs
      case Written(_, _) => s.write.totalNs;
    assert StatNs(Files.Updated(s, op)) == StatNs(s) - old_ + Add64(old_, OpNs(op));
    WrapAdd(old_ + OpNs(op), total - old_);
  }

  lemma ChargedTime(t: Files.FileTable, c: Files.Charge)
    ensures Wrap(FileTime(Files.Charged(t, c))) == Wrap(FileTime(t) + OpNs(c.op))
  {
    hide Files.Updated, StatNs, Wrap;
    var m := NsByFile(t);
    var s := Files.StatOf(t, c.name);
    var s' := Files.Updated(s, c.op);
    assert NsByFile(Files.Charged(t, c)) == m[c.name := StatNs(s')];
    TotalUpdate(m, c.name, StatNs(s'));
    InitHasNoTime();
    assert (if c.name in m then m[c.name] else 0) == StatNs(s);
    UpdatedTime(s, c.op, Total(m));
  }

  lemma InitHasNoTime()
    ensures StatNs(Files.INIT_STAT) == 0
  {}

  function ChargesNs(cs: seq<Files.Charge>): nat {
    if cs == [] then 0 else ChargesNs(cs[..|cs| - 1]) + OpNs(cs[|cs| - 1].op)
  }

  lemma {:induction false} ChargedAllTime(t: Files.FileTable, cs: seq<Files.Charge>)
    ensures Wrap(FileTime(ChargedAll(t, cs))) == Wrap(FileTime(t) + ChargesNs(cs))
  {
    hide Files.Charged, FileTime, Wrap, OpNs;
    if cs != [] {
      var init, last := cs[..|cs| - 1], cs[|cs| - 1];
      ChargedAllTime(t, init);
      ChargedTime(ChargedAll(t, init), last);
      WrapAdd(FileTime(ChargedAll(t, init)), OpNs(last.op));
      WrapAdd(FileTime(t) + ChargesNs(init), OpNs(last.op));
    }
  }

  lemma CountedTime(t: Calls.SyscallTable, c: Calls.Call)
    ensures Wrap(CallTime(Calls.Counted(t, c))) == Wrap(CallTime(t) + c.ns)
  {
    var m := NsByCall(t);
    var was := Calls.StatOf(t, c.syscall).totalNs;
    var t' := Calls.Counted(t, c);
    assert NsByCall(t') == m[c.syscall := Add64(was, c.ns)];
    TotalUpdate(m, c.syscall, Add64(was, c.ns));
    hide Wrap, Calls.Counted;
    WrapAdd(was + c.ns, Total(m) - was);
  }

  /** The time that is lost: the odd nanosecond of a successful pipe or socketpair,
      and all of a failed one. */
  function LostNs(c: Completed): nat {
    var k := Classify(c.sc);
    if !k.PipeKind? && !k.SocketPairKind? then 0
    else if c.rax == 0 then ElapsedOf(c) % 2
    else ElapsedOf(c)
  }

  function ElapsedAll(cs: seq<Completed>): nat {
    if cs == [] then 0 else ElapsedAll(cs[..|cs| - 1]) + ElapsedOf(cs[|cs| - 1])
  }

  function LostAll(cs: seq<Completed>): nat {
    if cs == [] then 0 else LostAll(cs[..|cs| - 1]) + LostNs(cs[|cs| - 1])
  }

  lemma StepNs(c: Completed, t: Table)
    requires NameReadable(c)
    ensures ChargesNs(ChargesOf(c, t)) + (if Unconsidered(Classify(c.sc)) then ElapsedOf(c) else 0)
         == ElapsedOf(c) - LostNs(c)
  {
    hide Low32, ElapsedOf, NameReadable;
    var cs := ChargesOf(c, t);
    if |cs| == 2 {
      assert cs[..1] == [cs[0]] && [cs[0]][..0] == [];
      assert ChargesNs([cs[0]]) == ElapsedOf(c) / 2;
    } else if |cs| == 1 {
      assert cs[..0] == [];
    }
  }

  /** Time is conserved over any trace: all tables together hold the elapsed time of all calls
      but for the lost time, up to wrap-around of the 64-bit counters. */
  lemma {:induction false} TimeIsConserved(t0: Table, cs: seq<Completed>)
    requires Collect(t0, cs).Some?
    ensures var st := Collect(t0, cs).value;
            Wrap(FileTime(st.files) + CallTime(st.calls)) == Wrap(ElapsedAll(cs) - LostAll(cs))
  {
    hide Wrap, FileTime, CallTime, ChargedAll, ChargesOf, ChargesNs, ElapsedOf, LostNs, EditsOf, After;
    hide Calls.Counted, NameReadable, Classify, Unconsidered;
    if cs == [] {
      NothingSpent();
    } else {
      var init, last := cs[..|cs| - 1], cs[|cs| - 1];
      TimeIsConserved(t0, init);
      var st := Collect(t0, init).value;
      var charges, ns := ChargesOf(last, st.table), ElapsedOf(last);
      var counted := if Unconsidered(Classify(last.sc)) then ns else 0;
      ChargedAllTime(st.files, charges);
      CountedTime(st.calls, Calls.Call(last.sc, ns));
      StepNs(last, st.table);
      var calls' := CountedIf(st.calls, Classify(last.sc), last.sc, ns);
      assert Wrap(CallTime(calls')) == Wrap(CallTime(st.calls) + counted);
      WrapSum(FileTime(ChargedAll(st.files, charges)), FileTime(st.files) + ChargesNs(charges),
              CallTime(calls'), CallTime(st.calls) + counted);
      WrapSum(FileTime(st.files) + CallTime(st.calls), ElapsedAll(init) - LostAll(init),
              ns - LostNs(last), ns - LostNs(last));
    }
  }

  lemma WrapSum(a: int, a': int, b: int, b': int)
    requires Wrap(a) == Wrap(a') && Wrap(b) == Wrap(b')
    ensures Wrap(a + b) == Wrap(a' + b')
  {
    hide Wrap;
    WrapAdd(a, b);
    WrapAdd(a', b);
    WrapAdd(b, a');
    WrapAdd(b', a');
  }

  lemma NothingSpent()
    ensures FileTime(Files.FRESH) == 0 && CallTime(map[]) == 0
  {
    assert NsByFile(Files.FRESH) == (map[])["NULL" := 0];
    TotalUpdate(map[], "NULL", 0);
    assert NsByCall(map[]) == map[];
  }
}
