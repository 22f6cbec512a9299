/** The guard is exact: a step that violates it breaks the invariant, and what follows
    from there. The window is between threads_add copying the pointers of the parent
    and the child's own thread raising the count. */
module SharingRaces {
  import opened FdTables
  import opened Sharing
  import opened SharingSafety

  /** A child is pending on the count that t alone holds. */
  predicate SolelyHeldWhilePending(s: State, t: nat, child: nat) {
    && t in s.threads && child in s.threads && child != t
    && s.threads[child].phase.PendingShared?
    && s.threads[child].count == s.threads[t].count
    && CountAt(s.heap, s.threads[t].count) && s.heap[s.threads[t].count].count == 1
  }

  lemma Follows(s: State, run: seq<Action>, rest: seq<Action>)
    requires run != [] && run[1..] == rest
    requires Enabled(s, run[0]) && Runs(Next(s, run[0]), rest)
    ensures Runs(s, run) && Run(s, run) == Run(Next(s, run[0]), rest)
  {}

  lemma SingleStep(s: State, a: Action)
    requires Enabled(s, a)
    ensures Runs(s, [a]) && Run(s, [a]) == Next(s, a)
  {
    assert [a][1..] == [];
  }

  /** What a good state says about such a pair. */
  lemma SameTrio(s: State, t: nat, child: nat)
    requires Inv(s) && SolelyHeldWhilePending(s, t, child) && Sharer(s.threads[t].phase)
    ensures Trio(s.heap, s.threads[t])
    ensures s.threads[child] == s.threads[t].(phase := PendingShared)
    ensures !s.crashed
  {
    assert Wired(s.heap, s.threads[t]) && Wired(s.heap, s.threads[child]);
    assert Apart(s.threads[t], s.threads[child]);
  }

  /** From every good state: if the last holder exits while a child is pending,
      the child goes on to raise a count that has been freed. */
  lemma UnguardedExitCrashes(s: State, t: nat, child: nat)
    requires Inv(s) && SolelyHeldWhilePending(s, t, child) && s.threads[t].phase.Running?
    ensures var run := [ExitDec(t), ExitFreeTable(t), ExitFreeCount(t), Register(child)];
            Runs(s, run) && Run(s, run).crashed
  {
    hide Inv, Effect, Safe, Runs, Run;
    SameTrio(s, t, child);
    var s1 := ExitDecided(s, t);
    var s2 := ExitTableFreed(s1, t);
    var s3 := ExitCountFreed(s2, t);
    RegisterFails(s3, child);
    SingleStep(s3, Register(child));
    Follows(s2, [ExitFreeCount(t), Register(child)], [Register(child)]);
    Follows(s1, [ExitFreeTable(t), ExitFreeCount(t), Register(child)], [ExitFreeCount(t), Register(child)]);
    Follows(s, [ExitDec(t), ExitFreeTable(t), ExitFreeCount(t), Register(child)],
            [ExitFreeTable(t), ExitFreeCount(t), Register(child)]);
  }

  lemma ExitDecided(s: State, t: nat) returns (s': State)
    requires t in s.threads && s.threads[t].phase.Running? && Trio(s.heap, s.threads[t])
    requires s.heap[s.threads[t].count].count == 1
    ensures Enabled(s, ExitDec(t)) && s' == Next(s, ExitDec(t))
    ensures s'.threads == s.threads[t := s.threads[t].(phase := FreeingTable)]
    ensures Trio(s'.heap, s.threads[t])
  {
    s' := Next(s, ExitDec(t));
  }

  lemma ExitTableFreed(s: State, t: nat) returns (s': State)
    requires t in s.threads && s.threads[t].phase.FreeingTable? && Trio(s.heap, s.threads[t])
    ensures Enabled(s, ExitFreeTable(t)) && s' == Next(s, ExitFreeTable(t))
    ensures s'.threads == s.threads[t := s.threads[t].(phase := FreeingCount)]
    ensures CountAt(s'.heap, s.threads[t].count)
  {
    s' := Next(s, ExitFreeTable(t));
  }

  lemma ExitCountFreed(s: State, t: nat) returns (s': State)
    requires t in s.threads && s.threads[t].phase.FreeingCount? && CountAt(s.heap, s.threads[t].count)
    ensures Enabled(s, ExitFreeCount(t)) && s' == Next(s, ExitFreeCount(t))
    ensures s'.threads == s.threads[t := s.threads[t].(phase := FreeingMutex)]
    ensures s.threads[t].count !in s'.heap
  {
    s' := Next(s, ExitFreeCount(t));
  }

  lemma RegisterFails(s: State, child: nat)
    requires child in s.threads && s.threads[child].phase.PendingShared? && s.threads[child].count !in s.heap
    ensures Enabled(s, Register(child)) && Next(s, Register(child)).crashed
  {}

  /** From every good state: if the last other sharer is gone when the exec decrements, the
      table is freed under a pending child, which then works on it. */
  lemma UnguardedExecCrashes(s: State, t: nat, child: nat)
    requires Inv(s) && SolelyHeldWhilePending(s, t, child) && s.threads[t].phase.ExecCopied?
    ensures var run := [ExecDec(t), ExecFreeOld(t), Register(child), Edit(child, Drop(0))];
            Runs(s, run) && Run(s, run).crashed
  {
    hide Inv, Effect, Safe, Runs, Run;
    SameTrio(s, t, child);
    var s1 := ExecDecided(s, t);
    var s2 := ExecTableFreed(s1, t);
    var s3 := RegisterSucceeds(s2, child);
    EditFails(s3, child);
    SingleStep(s3, Edit(child, Drop(0)));
    Follows(s2, [Register(child), Edit(child, Drop(0))], [Edit(child, Drop(0))]);
    Follows(s1, [ExecFreeOld(t), Register(child), Edit(child, Drop(0))], [Register(child), Edit(child, Drop(0))]);
    Follows(s, [ExecDec(t), ExecFreeOld(t), Register(child), Edit(child, Drop(0))],
            [ExecFreeOld(t), Register(child), Edit(child, Drop(0))]);
  }

  lemma ExecDecided(s: State, t: nat) returns (s': State)
    requires t in s.threads && s.threads[t].phase.ExecCopied? && Trio(s.heap, s.threads[t])
    requires s.heap[s.threads[t].count].count == 1
    ensures Enabled(s, ExecDec(t)) && s' == Next(s, ExecDec(t))
    ensures var phase := s.threads[t].phase;
            s'.threads == s.threads[t := s.threads[t].(phase := ExecLast(phase.copy, phase.snap))]
    ensures Trio(s'.heap, s.threads[t])
  {
    s' := Next(s, ExecDec(t));
  }

  lemma ExecTableFreed(s: State, t: nat) returns (s': State)
    requires t in s.threads && s.threads[t].phase.ExecLast? && Trio(s.heap, s.threads[t])
    ensures Enabled(s, ExecFreeOld(t)) && s' == Next(s, ExecFreeOld(t))
    ensures var phase := s.threads[t].phase;
            s'.threads == s.threads[t := s.threads[t].(phase := ExecReady(phase.copy, phase.snap))]
    ensures s.threads[t].table !in s'.heap && CountAt(s'.heap, s.threads[t].count)
  {
    s' := Next(s, ExecFreeOld(t));
  }

  lemma RegisterSucceeds(s: State, child: nat) returns (s': State)
    requires child in s.threads && s.threads[child].phase.PendingShared? && CountAt(s.heap, s.threads[child].count)
    ensures Enabled(s, Register(child)) && s' == Next(s, Register(child))
    ensures s'.threads == s.threads[child := s.threads[child].(phase := Running)]
    ensures s'.heap.Keys == s.heap.Keys && s'.crashed == s.crashed
    ensures forall id :: TableAt(s.heap, id) ==> Contents(s'.heap, id) == Contents(s.heap, id)
  {
    s' := Next(s, Register(child));
  }

  lemma EditFails(s: State, child: nat)
    requires child in s.threads && s.threads[child].phase.Running? && s.threads[child].table !in s.heap
    ensures Enabled(s, Edit(child, Drop(0))) && Next(s, Edit(child, Drop(0))).crashed
  {}

  /** From every good state: an exec that takes a count of one for sole ownership while a
      child is pending strips the table of both, and they go on sharing it. */
  lemma UnguardedExecKeepsSharing(s: State, t: nat, child: nat)
    requires Inv(s) && SolelyHeldWhilePending(s, t, child) && s.threads[t].phase.Running?
    ensures var run := [ExecTest(t), ExecStrip(t), Register(child)];
            && Runs(s, run)
            && var s' := Run(s, run);
               && !s'.crashed
               && t in s'.threads && child in s'.threads
               && s'.threads[t].phase.Running? && s'.threads[child].phase.Running?
               && s'.threads[t].table == s'.threads[child].table == s.threads[t].table
               && Contents(s'.heap, s.threads[t].table) == Stripped(Contents(s.heap, s.threads[t].table))
  {
    hide Inv, Effect, Safe, Runs, Run, Contents, Stripped;
    SameTrio(s, t, child);
    var s1 := ExecTestedSole(s, t);
    var s2 := ExecStripped(s1, t);
    var s3 := RegisterSucceeds(s2, child);
    SingleStep(s2, Register(child));
    Follows(s1, [ExecStrip(t), Register(child)], [Register(child)]);
    Follows(s, [ExecTest(t), ExecStrip(t), Register(child)], [ExecStrip(t), Register(child)]);
  }

  lemma ExecTestedSole(s: State, t: nat) returns (s': State)
    requires t in s.threads && s.threads[t].phase.Running? && Trio(s.heap, s.threads[t])
    requires s.heap[s.threads[t].count].count == 1
    ensures Enabled(s, ExecTest(t)) && s' == Next(s, ExecTest(t))
    ensures t in s'.threads && s'.threads == s.threads[t := s'.threads[t]]
    ensures s'.threads[t].phase.ExecStripping? && s'.threads[t] == s.threads[t].(phase := s'.threads[t].phase)
    ensures s'.heap == s.heap && s'.crashed == s.crashed
  {
    s' := Next(s, ExecTest(t));
  }

  lemma ExecStripped(s: State, t: nat) returns (s': State)
    requires t in s.threads && s.threads[t].phase.ExecStripping? && Trio(s.heap, s.threads[t])
    ensures Enabled(s, ExecStrip(t)) && s' == Next(s, ExecStrip(t))
    ensures s'.threads == s.threads[t := s.threads[t].(phase := Running)]
    ensures s'.crashed == s.crashed && CountAt(s'.heap, s.threads[t].count)
    ensures TableAt(s'.heap, s.threads[t].table)
    ensures Contents(s'.heap, s.threads[t].table) == Stripped(Contents(s.heap, s.threads[t].table))
  {
    s' := Next(s, ExecStrip(t));
  }

  /** The shortest run into the window: one clone, and the parent exits first. */
  lemma RaceFromTheStart()
    ensures var run := [Clone(0, 1, true), ExitDec(0), ExitFreeTable(0), ExitFreeCount(0), Register(1)];
            Runs(INIT, run) && Run(INIT, run).crashed
  {
    hide Inv, Runs, Run;
    InitInv();
    StepCloneShared(INIT, Clone(0, 1, true));
    UnguardedExitCrashes(Next(INIT, Clone(0, 1, true)), 0, 1);
    var rest := [ExitDec(0), ExitFreeTable(0), ExitFreeCount(0), Register(1)];
    Follows(INIT, [Clone(0, 1, true), ExitDec(0), ExitFreeTable(0), ExitFreeCount(0), Register(1)], rest);
  }

  const TO_EXEC_WINDOW := [Clone(0, 1, true), Register(1)] + TO_EXEC_WINDOW_FROM_TWO
  const TO_EXEC_WINDOW_FROM_TWO := [Clone(1, 2, true), ExecTest(0), ExecCopy(0), ExitDec(1)]

  /** Two threads that share the main table. */
  const TWO_SHARERS := State(
    map[0 := TableCell(INITIAL), 1 := CountCell(2), 2 := MutexCell], 3, multiset{},
    map[0 := Thread(Running, 0, 1, 2), 1 := Thread(Running, 0, 1, 2)], false)

  /** One of them has copied the table, the other has a child and is gone. */
  const IN_EXEC_WINDOW := State(
    map[0 := TableCell(INITIAL), 1 := CountCell(1), 2 := MutexCell, 3 := TableCell(INITIAL)], 4, multiset{},
    map[0 := Thread(ExecCopied(3, INITIAL), 0, 1, 2), 1 := Thread(Gone, 0, 1, 2), 2 := Thread(PendingShared, 0, 1, 2)],
    false)

  /** The window of an exec is reached by a guarded run. */
  lemma ExecWindowIsReached()
    ensures Runs(INIT, TO_EXEC_WINDOW) && Guarded(INIT, TO_EXEC_WINDOW)
    ensures Run(INIT, TO_EXEC_WINDOW) == IN_EXEC_WINDOW && Inv(IN_EXEC_WINDOW)
    ensures SolelyHeldWhilePending(IN_EXEC_WINDOW, 0, 2) && IN_EXEC_WINDOW.threads[0].phase.ExecCopied?
  {
    hide Inv, Runs, Run, Guarded, Guard, Next, Enabled;
    var run := TO_EXEC_WINDOW;
    TwoShare();
    FromTwoToWindow();
    var s1 := Next(INIT, Clone(0, 1, true));
    assert run[1..][1..] == TO_EXEC_WINDOW_FROM_TWO;
    GuardedFollows(s1, run[1..], TO_EXEC_WINDOW_FROM_TWO);
    GuardedFollows(INIT, run, run[1..]);
    InitInv();
    RunKeepsInv(INIT, run);
  }

  lemma GuardedFollows(s: State, run: seq<Action>, rest: seq<Action>)
    requires run != [] && run[1..] == rest
    requires Enabled(s, run[0]) && Guard(s, run[0]) && Runs(Next(s, run[0]), rest) && Guarded(Next(s, run[0]), rest)
    ensures Runs(s, run) && Guarded(s, run) && Run(s, run) == Run(Next(s, run[0]), rest)
  {
    hide Enabled, Guard, Next;
  }

  lemma GuardedNothing(s: State)
    ensures Runs(s, []) && Guarded(s, []) && Run(s, []) == s
  {}

  lemma TwoShare()
    ensures Enabled(INIT, Clone(0, 1, true)) && Guard(INIT, Clone(0, 1, true))
    ensures var s1 := Next(INIT, Clone(0, 1, true));
            Enabled(s1, Register(1)) && Guard(s1, Register(1)) && Next(s1, Register(1)) == TWO_SHARERS
  {}

  /** The other one has a child, and the first finds that it has to copy. */
  const COPYING := State(
    map[0 := TableCell(INITIAL), 1 := CountCell(2), 2 := MutexCell], 3, multiset{},
    map[0 := Thread(ExecCopying, 0, 1, 2), 1 := Thread(Running, 0, 1, 2), 2 := Thread(PendingShared, 0, 1, 2)], false)

  lemma FromTwoToWindow()
    ensures Runs(TWO_SHARERS, TO_EXEC_WINDOW_FROM_TWO) && Guarded(TWO_SHARERS, TO_EXEC_WINDOW_FROM_TWO)
    ensures Run(TWO_SHARERS, TO_EXEC_WINDOW_FROM_TWO) == IN_EXEC_WINDOW
  {
    hide Runs, Run, Guarded, Next, Enabled, Guard;
    var run := TO_EXEC_WINDOW_FROM_TWO;
    TwoToCopying();
    CopyingToWindow();
    GuardedNothing(IN_EXEC_WINDOW);
    GuardedFollows(Next(COPYING, run[2]), [run[3]], []);
    GuardedFollows(COPYING, [run[2], run[3]], [run[3]]);
    GuardedFollows(Next(TWO_SHARERS, run[0]), [run[1], run[2], run[3]], [run[2], run[3]]);
    GuardedFollows(TWO_SHARERS, run, [run[1], run[2], run[3]]);
  }

  lemma TwoToCopying()
    ensures Enabled(TWO_SHARERS, Clone(1, 2, true)) && Guard(TWO_SHARERS, Clone(1, 2, true))
    ensures var s1 := Next(TWO_SHARERS, Clone(1, 2, true));
            Enabled(s1, ExecTest(0)) && Guard(s1, ExecTest(0)) && Next(s1, ExecTest(0)) == COPYING
  {}

  lemma CopyingToWindow()
    ensures Enabled(COPYING, ExecCopy(0)) && Guard(COPYING, ExecCopy(0))
    ensures var s1 := Next(COPYING, ExecCopy(0));
            Enabled(s1, ExitDec(1)) && Guard(s1, ExitDec(1)) && Next(s1, ExitDec(1)) == IN_EXEC_WINDOW
  {}

  /** A step from a good state leads to a good state exactly if it respects the guard. */
  lemma GuardIsExact(s: State, a: Action)
    requires Inv(s) && Enabled(s, a)
    ensures Guard(s, a) <==> Inv(Next(s, a))
  {
    hide Inv, Wired, Holders;
    if Guard(s, a) {
      StepKeepsInv(s, a);
    } else {
      var t := a.t;
      var child :| child in s.threads && s.threads[child].phase.PendingShared?
                && s.threads[child].count == s.threads[t].count;
      UnguardedBreaksInv(s, a, child);
    }
  }

  lemma UnguardedBreaksInv(s: State, a: Action, child: nat)
    requires Inv(s) && Enabled(s, a) && (a.ExecTest? || a.ExecDec? || a.ExitDec?)
    requires SolelyHeldWhilePending(s, a.t, child)
    ensures !Inv(Next(s, a))
  {
    hide AllApart, Accounted, NoOrphans, CountsRight, AllWired, PendingHeld, Effect, Safe, Enabled;
    UnguardedNotApart(s, a, child);
  }

  /** The child shares what the thread now takes for its own. */
  lemma UnguardedNotApart(s: State, a: Action, child: nat)
    requires Enabled(s, a) && (a.ExecTest? || a.ExecDec? || a.ExitDec?)
    requires SolelyHeldWhilePending(s, a.t, child)
    ensures !AllApart(Next(s, a).threads)
  {
    hide Coherent;
    var th, s' := s.threads[a.t], Next(s, a);
    assert s'.threads[child] == s.threads[child];
    assert Shares(s'.threads[child], th.count);
    assert Owns(s'.threads[a.t], th.count);
    assert !Apart(s'.threads[a.t], s'.threads[child]);
  }
}
