/** One tracer thread from start to end: it handles its tracee's system calls one after the
    other with private tables and merges these into the main ones. */
module Tracers {
  import opened FdHistory
  import opened FdTables
  import opened HandlerLaws
  import opened Handlers
  import opened Options
  import opened Syscalls
  import Calls = SyscallStats
  import Files = FileStats

  /** No system call of the trace makes a handler use the entry of an unknown descriptor. */
  predicate OnlyKnownDescriptors(t0: Table, cs: seq<Completed>) {
    cs == [] ||
    var init, last := cs[..|cs| - 1], cs[|cs| - 1];
    && OnlyKnownDescriptors(t0, init)
    && (Collect(t0, init).Some? && NameReadable(last) ==> After(Collect(t0, init).value.table, EditsOf(last)).Some?)
  }

  lemma {:induction false} KnownSoFar(t0: Table, cs: seq<Completed>, i: nat)
    requires OnlyKnownDescriptors(t0, cs) && i <= |cs|
    ensures OnlyKnownDescriptors(t0, cs[..i])
  {
    if i == |cs| {
      assert cs[..i] == cs;
    } else {
      KnownSoFar(t0, cs[..|cs| - 1], i);
      assert cs[..|cs| - 1][..i] == cs[..i];
    }
  }

  lemma CollectNext(t0: Table, cs: seq<Completed>, i: nat)
    requires i < |cs|
    ensures Collect(t0, cs[..i + 1]) == match Collect(t0, cs[..i]) case None => None case Some(st) => Step(st, cs[i])
    ensures OnlyKnownDescriptors(t0, cs[..i + 1]) && Collect(t0, cs[..i]).Some? && NameReadable(cs[i]) ==>
      After(Collect(t0, cs[..i]).value.table, EditsOf(cs[i])).Some?
  {
    hide Step, EditsOf, NameReadable, After;
    assert cs[..i + 1][..|cs[..i + 1]| - 1] == cs[..i];
  }

  lemma Unreadable(st: Collected, c: Completed)
    ensures !NameReadable(c) ==> Step(st, c) == None
  {}

  /** Nothing is collected after the tracer gave up. */
  lemma {:induction false} GaveUp(t0: Table, cs: seq<Completed>, i: nat)
    requires i <= |cs| && Collect(t0, cs[..i]).None?
    ensures Collect(t0, cs).None?
    decreases |cs| - i
  {
    hide Step;
    if i == |cs| {
      assert cs[..i] == cs;
    } else {
      CollectNext(t0, cs, i);
      GaveUp(t0, cs, i + 1);
    }
  }

  /** The call and the return of one system call. */
  method HandleSyscall(tmps: ThreadTmps, c: Completed, files: Files.FileStatTable, calls: Calls.SyscallStatTable)
    returns (ok: bool)
    requires tmps.Valid() && files.Valid() && calls.Valid() && NamesFit(tmps.fdTable.View())
    requires NameReadable(c) ==> After(tmps.fdTable.View(), EditsOf(c)).Some?
    modifies tmps, tmps.filenameBuffer, tmps.fdTable, tmps.fdTable.Owned(), tmps.shareCount
    modifies files, files.Owned(), calls, calls.Owned()
    ensures tmps.Valid() && files.Valid() && calls.Valid()
    ensures tmps.KeepsToItself() && files.OnlyNewRecords() && calls.OnlyNewRecords()
    ensures ok <==> NameReadable(c)
    ensures ok ==>
      Step(old(Collected(tmps.fdTable.View(), files.View(), calls.View())), c)
      == Some(Collected(tmps.fdTable.View(), files.View(), calls.View()))
  {
    hide Classify, AfterCall, After, EditsOf, ChargesOf, EditsAfter, ChargesAfter, ChargedAll, CountedIf;
    hide Elapsed, NameReadable, NamesFit;
    hide FdTable.View, Files.FileStatTable.View, Calls.SyscallStatTable.View, Files.WellFormed;
    ghost var sv := tmps.State();
    GivesUpExactly(sv, c);
    ok := tmps.HandleSyscallCall(c.sc, c.regs, c.memAtCall, c.start);
    if !ok {
      return;
    }
    HandlersFollowRegisters(sv, c);
    tmps.HandleSyscallReturn(c.sc, c.rax, c.memAtReturn, c.end, files, calls);
  }

  /** The tracer gets through the call that the tracee exits in, if any; it never returns. */
  predicate GetsThrough(last: Option<Completed>) {
    last.Some? ==> NameReadable(last.value)
  }

  /** Handles system calls until the tracee exits, possibly after it entered a last one, or
      until a filename cannot be read. */
  method Trace(tmps: ThreadTmps, trace: seq<Completed>, last: Option<Completed>,
               files: Files.FileStatTable, calls: Calls.SyscallStatTable)
    returns (ok: bool)
    requires tmps.Valid() && files.Valid() && calls.Valid() && NamesFit(tmps.fdTable.View())
    requires files.View() == Files.FRESH && calls.View() == map[]
    requires OnlyKnownDescriptors(tmps.fdTable.View(), trace)
    modifies tmps, tmps.filenameBuffer, tmps.fdTable, tmps.fdTable.Owned(), tmps.shareCount
    modifies files, files.Owned(), calls, calls.Owned()
    ensures tmps.Valid() && files.Valid() && calls.Valid()
    ensures tmps.KeepsToItself() && files.OnlyNewRecords() && calls.OnlyNewRecords()
    ensures ok <==> Collect(old(tmps.fdTable.View()), trace).Some? && GetsThrough(last)
    ensures ok ==>
      Collect(old(tmps.fdTable.View()), trace) == Some(Collected(tmps.fdTable.View(), files.View(), calls.View()))
  {
    hide Step, EditsOf, NameReadable, After, NamesFit, Files.WellFormed, OnlyKnownDescriptors, AfterCall, Classify;
    hide FdTable.View, Files.FileStatTable.View, Calls.SyscallStatTable.View;
    ghost var t0 := tmps.fdTable.View();
    var i := 0;
    while i < |trace|
      invariant 0 <= i <= |trace|
      invariant tmps.Valid() && files.Valid() && calls.Valid()
      invariant tmps.KeepsToItself() && files.OnlyNewRecords() && calls.OnlyNewRecords()
      invariant NamesFit(tmps.fdTable.View())
      invariant Collect(t0, trace[..i]) == Some(Collected(tmps.fdTable.View(), files.View(), calls.View()))
    {
      CollectNext(t0, trace, i);
      KnownSoFar(t0, trace, i + 1);
      var handled := HandleSyscall(tmps, trace[i], files, calls);
      if !handled {
        Unreadable(Collect(t0, trace[..i]).value, trace[i]);
        GaveUp(t0, trace, i + 1);
        return false;
      }
      NamesAlwaysFit(t0, trace[..i + 1]);
      i := i + 1;
    }
    assert trace[..i] == trace;
    ok := true;
    if last.Some? {
      var c := last.value;
      GivesUpExactly(tmps.State(), c);
      ok := tmps.HandleSyscallCall(c.sc, c.regs, c.memAtCall, c.start);
    }
  }

  /** Merges a thread's tables into the main ones, each under its lock. */
  method MergeInto(mainFiles: Files.FileStatTable, mainCalls: Calls.SyscallStatTable,
                   files: Files.FileStatTable, calls: Calls.SyscallStatTable)
    requires mainFiles.Valid() && files.Valid() && mainFiles.ApartFrom(files)
    requires mainCalls.Valid() && calls.Valid() && mainCalls.ApartFrom(calls)
    modifies mainFiles, mainFiles.Owned(), mainCalls, mainCalls.Owned()
    ensures mainFiles.Valid() && mainCalls.Valid()
    ensures mainFiles.View() == Files.Combined(old(mainFiles.View()), old(files.View()))
    ensures mainCalls.View() == Calls.Combined(old(mainCalls.View()), old(calls.View()))
  {
    hide Files.Combined, Calls.Combined, Files.WellFormed, Files.FileStatTable.View, Calls.SyscallStatTable.View;
    mainFiles.Merge(files);
    mainCalls.Merge(calls);
  }

  /** Traces with new tables of its own. */
  method TraceAlone(tmps: ThreadTmps, trace: seq<Completed>, last: Option<Completed>)
    returns (ok: bool, files: Files.FileStatTable, calls: Calls.SyscallStatTable)
    requires tmps.Valid() && NamesFit(tmps.fdTable.View()) && OnlyKnownDescriptors(tmps.fdTable.View(), trace)
    modifies tmps, tmps.filenameBuffer, tmps.fdTable, tmps.fdTable.Owned(), tmps.shareCount
    ensures files.Valid() && fresh(files) && forall n :: n in files.records ==> fresh(files.records[n])
    ensures calls.Valid() && fresh(calls) && forall k :: k in calls.records ==> fresh(calls.records[k])
    ensures var collected := Collect(old(tmps.fdTable.View()), trace);
            && (ok <==> collected.Some? && GetsThrough(last))
            && (ok ==> files.View() == collected.value.files && calls.View() == collected.value.calls)
  {
    hide Collect, NamesFit, OnlyKnownDescriptors, Files.WellFormed, ThreadTmps.KeepsToItself;
    hide FdTable.View, Files.FileStatTable.View, Calls.SyscallStatTable.View;
    files := new Files.FileStatTable();
    calls := new Calls.SyscallStatTable();
    ok := Trace(tmps, trace, last, files, calls);
  }

  /** Traces, then merges into the main tables when the tracee has exited. Not ok means that
      the tracer gives up; then nothing is merged. */
  method StartTracer(tmps: ThreadTmps, trace: seq<Completed>, last: Option<Completed>,
                     mainFiles: Files.FileStatTable, mainCalls: Calls.SyscallStatTable)
    returns (ok: bool)
    requires tmps.Valid() && mainFiles.Valid() && mainCalls.Valid() && NamesFit(tmps.fdTable.View())
    requires OnlyKnownDescriptors(tmps.fdTable.View(), trace)
    modifies tmps, tmps.filenameBuffer, tmps.fdTable, tmps.fdTable.Owned(), tmps.shareCount
    modifies mainFiles, mainFiles.Owned(), mainCalls, mainCalls.Owned()
    ensures mainFiles.Valid() && mainCalls.Valid()
    ensures var collected := Collect(old(tmps.fdTable.View()), trace);
            && (ok <==> collected.Some? && GetsThrough(last))
            && (ok ==>
                 && mainFiles.View() == Files.Combined(old(mainFiles.View()), collected.value.files)
                 && mainCalls.View() == Calls.Combined(old(mainCalls.View()), collected.value.calls))
            && (!ok ==> mainFiles.View() == old(mainFiles.View()) && mainCalls.View() == old(mainCalls.View()))
  {
    hide Collect, NamesFit, OnlyKnownDescriptors, Files.Combined, Calls.Combined, Files.WellFormed, ThreadTmps.Valid;
    hide FdTable.View, Files.FileStatTable.View, Calls.SyscallStatTable.View;
    var files, calls;
    ok, files, calls := TraceAlone(tmps, trace, last);
    if ok {
      MergeInto(mainFiles, mainCalls, files, calls);
    }
  }
}
