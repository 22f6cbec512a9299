/** Whole handlers in one go: what the shared tables look like when a thread edits its table,
    clones, execs or exits while no other thread is in the middle of anything. */
module AtomicEvents {
  import opened FdHistory
  import opened FdTables
  import opened Options
  import opened Sharing
  import opened SharingExec
  import opened SharingSafety

  /** Performs steps one after the other; the tracer crashes if it cannot, which is when
      it uses the entry of a descriptor that its table does not have. */
  function Perform(s: State, run: seq<Action>): State
    decreases |run|
  {
    if run == [] then s
    else if Enabled(s, run[0]) then Perform(Next(s, run[0]), run[1..])
    else s.(crashed := true)
  }

  function EditSteps(t: nat, es: seq<Edit>): (run: seq<Action>)
    ensures |run| == |es|
  {
    if es == [] then [] else [Action.Edit(t, es[0])] + EditSteps(t, es[1..])
  }

  /** The path an exec takes depends on the count it reads. */
  function ExecSteps(s: State, t: nat): seq<Action> {
    if t in s.threads && CountAt(s.heap, s.threads[t].count) && s.heap[s.threads[t].count].count > 1 then
      [ExecTest(t), ExecCopy(t), ExecDec(t), ExecAlloc(t), ExecInstall(t), ExecStrip(t)]
    else [ExecTest(t), ExecStrip(t)]
  }

  function CloneSteps(t: nat, child: nat, share: bool): seq<Action> {
    [Clone(t, child, share), Register(child)]
  }

  function ExitSteps(s: State, t: nat): seq<Action> {
    if t in s.threads && CountAt(s.heap, s.threads[t].count) && s.heap[s.threads[t].count].count > 1 then [ExitDec(t)]
    else [ExitDec(t), ExitFreeTable(t), ExitFreeCount(t), ExitFreeMutex(t)]
  }

  // ---- between events ----

  ghost predicate Settled(s: State) {
    Inv(s) && forall t :: t in s.threads ==> s.threads[t].phase.Running? || s.threads[t].phase.Gone?
  }

  predicate Live(s: State, t: nat) {
    t in s.threads && s.threads[t].phase.Running?
  }

  function TableOf(s: State, t: nat): Table {
    if t in s.threads then Contents(s.heap, s.threads[t].table) else map[]
  }

  predicate SameTable(s: State, t: nat, u: nat) {
    t in s.threads && u in s.threads && s.threads[t].table == s.threads[u].table
  }

  /** Only t moves: the others are as they were. */
  ghost predicate OthersAsBefore(s: State, s': State, t: nat) {
    forall u :: u != t ==>
      && (u in s'.threads <==> u in s.threads)
      && (u in s.threads ==> s'.threads[u] == s.threads[u])
      && (Live(s, u) ==> TableOf(s', u) == TableOf(s, u))
  }

  lemma SettledRelies(s: State, t: nat)
    requires Settled(s) && Live(s, t)
    ensures Trio(s.heap, s.threads[t]) && !s.crashed
    ensures s.heap[s.threads[t].count].count == |Holders(s.threads, s.threads[t].count)| >= 1
    ensures forall id :: id in s.heap ==> id < s.next
    ensures forall c :: !PendingOn(s.threads, c)
  {
    hide Accounted, AllApart, NoOrphans, PendingHeld;
    Relies(s, t);
    assert t in Holders(s.threads, s.threads[t].count);
  }

  // ---- edits ----

  /** A thread's edits take its table through exactly the history they make up, for all its
      sharers, or crash the tracer if that history looks up a missing entry. */
  lemma {:induction false} EditsPerformed(s: State, t: nat, es: seq<Edit>)
    requires Settled(s) && Live(s, t) && Strip !in es
    ensures var s' := Perform(s, EditSteps(t, es));
            match After(TableOf(s, t), es)
            case None => s'.crashed
            case Some(table) => Settled(s') && s' == s.(heap := s.heap[s.threads[t].table := TableCell(table)])
    decreases |es|
  {
    hide Inv, After, Edited, Defined;
    SettledRelies(s, t);
    if es == [] {
      NoHistory(TableOf(s, t));
      assert s.heap[s.threads[t].table := TableCell(TableOf(s, t))] == s.heap;
    } else {
      var a := Action.Edit(t, es[0]);
      assert es[0] in es && es == [es[0]] + es[1..];
      HistoryStep(TableOf(s, t), es[0], es[1..]);
      assert EditSteps(t, es)[1..] == EditSteps(t, es[1..]);
      assert Enabled(s, a) <==> Defined(TableOf(s, t), es[0]);
      if Enabled(s, a) {
        StepKeepsInv(s, a);
        EditsPerformed(Next(s, a), t, es[1..]);
      }
    }
  }

  lemma NoHistory(t: Table)
    ensures After(t, []) == Some(t)
  {}

  lemma {:induction false} HistoryStep(t: Table, e: Edit, es: seq<Edit>)
    ensures After(t, [e] + es) == if Defined(t, e) then After(Edited(t, e), es) else None
    decreases |es|
  {
    if es == [] {
      assert [e] + es == [e] && [e][..0] == [];
    } else {
      assert ([e] + es)[..|[e] + es| - 1] == [e] + es[..|es| - 1];
      HistoryStep(t, e, es[..|es| - 1]);
    }
  }

  // ---- exec ----

  ghost predicate NobodyPending(s: State) {
    forall t :: t in s.threads ==> !s.threads[t].phase.PendingShared?
  }

  lemma ExecStep(s: State, a: Action)
    requires Inv(s) && NobodyPending(s) && Enabled(s, a) && IsExec(a)
    ensures var s' := Next(s, a);
            Safe(s, a) && Inv(s') && NobodyPending(s') && a.t in s'.threads && OthersAsBefore(s, s', a.t)
    ensures forall snap :: MidExec(s, a.t, snap) && !a.ExecStrip? ==> MidExec(Next(s, a), a.t, snap)
  {
    hide Inv, Trio, Contents, Stripped;
    assert Guard(s, a);
    StepKeepsInv(s, a);
    var s' := Next(s, a);
    forall u | u != a.t && Live(s, u) ensures TableOf(s', u) == TableOf(s, u) {
      ExecStepFrame(s, a, u);
    }
  }

  lemma ExecStepFrame(s: State, a: Action, u: nat)
    requires Inv(s) && Enabled(s, a) && Guard(s, a) && IsExec(a) && u != a.t && Live(s, u)
    ensures u in Next(s, a).threads && TableOf(Next(s, a), u) == TableOf(s, u)
  {
    hide Inv, Guard, Stripped;
    Relies(s, u);
    assert Shares(s.threads[u], s.threads[u].table);
    OthersKeepTheirTables(s, a, u, s.threads[u].table);
  }

  lemma PerformNext(s: State, run: seq<Action>, rest: seq<Action>)
    requires run != [] && run[1..] == rest && Enabled(s, run[0])
    ensures Perform(s, run) == Perform(Next(s, run[0]), rest)
  {
    hide Enabled, Next;
  }

  lemma PerformNothing(s: State)
    ensures Perform(s, []) == s
  {}

  /** The last step of an exec. */
  lemma ExecFinished(s: State, t: nat, snap: Table)
    requires Inv(s) && NobodyPending(s) && MidExec(s, t, snap) && s.threads[t].phase.ExecStripping?
    ensures var s' := Perform(s, [ExecStrip(t)]);
            Inv(s') && SoleHolderOf(s', t, Stripped(snap)) && OthersAsBefore(s, s', t)
  {
    hide Inv, Stripped, Effect, Safe, SoleHolderOf;
    ExecStep(s, ExecStrip(t));
    ExecEnds(s, t, snap);
    PerformNext(s, [ExecStrip(t)], []);
    PerformNothing(Next(s, ExecStrip(t)));
  }

  /** From the copy on, if other sharers are left. */
  lemma ExecFromCopy(s: State, t: nat, snap: Table)
    requires Inv(s) && NobodyPending(s) && MidExec(s, t, snap) && s.threads[t].phase.ExecCopied?
    requires CountAt(s.heap, s.threads[t].count) && s.heap[s.threads[t].count].count > 1
    ensures var s' := Perform(s, [ExecDec(t), ExecAlloc(t), ExecInstall(t), ExecStrip(t)]);
            Inv(s') && SoleHolderOf(s', t, Stripped(snap)) && OthersAsBefore(s, s', t)
  {
    hide Inv, Stripped, SoleHolderOf, Perform, Safe, Trio, TableOf, NobodyPending, IsExec;
    var s1, s2, s3 := ExecMiddle(s, t, snap);
    ExecFinished(s3, t, snap);
    PerformNext(s2, [ExecInstall(t), ExecStrip(t)], [ExecStrip(t)]);
    PerformNext(s1, [ExecAlloc(t), ExecInstall(t), ExecStrip(t)], [ExecInstall(t), ExecStrip(t)]);
    PerformNext(s, [ExecDec(t), ExecAlloc(t), ExecInstall(t), ExecStrip(t)],
                [ExecAlloc(t), ExecInstall(t), ExecStrip(t)]);
  }

  lemma ExecMiddle(s: State, t: nat, snap: Table) returns (s1: State, s2: State, s3: State)
    requires Inv(s) && NobodyPending(s) && MidExec(s, t, snap) && s.threads[t].phase.ExecCopied?
    requires CountAt(s.heap, s.threads[t].count) && s.heap[s.threads[t].count].count > 1
    ensures Enabled(s, ExecDec(t)) && s1 == Next(s, ExecDec(t))
    ensures Enabled(s1, ExecAlloc(t)) && s2 == Next(s1, ExecAlloc(t))
    ensures Enabled(s2, ExecInstall(t)) && s3 == Next(s2, ExecInstall(t))
    ensures Inv(s3) && NobodyPending(s3) && MidExec(s3, t, snap) && s3.threads[t].phase.ExecStripping?
    ensures OthersAsBefore(s, s3, t)
  {
    hide Inv, Stripped, Trio, TableOf, NobodyPending, Contents;
    ExecStep(s, ExecDec(t));
    s1 := Next(s, ExecDec(t));
    ExecStep(s1, ExecAlloc(t));
    s2 := Next(s1, ExecAlloc(t));
    ExecStep(s2, ExecInstall(t));
    s3 := Next(s2, ExecInstall(t));
  }

  lemma SettledNobodyPending(s: State)
    requires Settled(s)
    ensures NobodyPending(s)
  {
    hide Inv;
  }

  lemma CopierHasTrio(s: State, t: nat)
    requires Inv(s) && t in s.threads && s.threads[t].phase.ExecCopying?
    ensures Trio(s.heap, s.threads[t])
  {
    hide Inv, Accounted, Holders;
    Relies(s, t);
  }

  lemma ExecOfSharer(s: State, t: nat)
    requires Settled(s) && Live(s, t) && CountAt(s.heap, s.threads[t].count) && s.heap[s.threads[t].count].count > 1
    ensures var s' := Perform(s, [ExecTest(t), ExecCopy(t), ExecDec(t), ExecAlloc(t), ExecInstall(t), ExecStrip(t)]);
            Inv(s') && SoleHolderOf(s', t, Stripped(TableOf(s, t))) && OthersAsBefore(s, s', t)
  {
    hide Inv, Stripped, SoleHolderOf, Perform, Safe, NobodyPending, MidExec;
    SettledRelies(s, t);
    SettledNobodyPending(s);
    ExecStep(s, ExecTest(t));
    var s1 := Next(s, ExecTest(t));
    ExecStep(s1, ExecCopy(t));
    CopierHasTrio(s1, t);
    TakesOver(s1, t);
    var s2 := Next(s1, ExecCopy(t));
    ExecFromCopy(s2, t, TableOf(s, t));
    PerformNext(s1, [ExecCopy(t), ExecDec(t), ExecAlloc(t), ExecInstall(t), ExecStrip(t)],
                [ExecDec(t), ExecAlloc(t), ExecInstall(t), ExecStrip(t)]);
    PerformNext(s, [ExecTest(t), ExecCopy(t), ExecDec(t), ExecAlloc(t), ExecInstall(t), ExecStrip(t)],
                [ExecCopy(t), ExecDec(t), ExecAlloc(t), ExecInstall(t), ExecStrip(t)]);
  }

  lemma ExecOfSole(s: State, t: nat)
    requires Settled(s) && Live(s, t) && CountAt(s.heap, s.threads[t].count) && s.heap[s.threads[t].count].count <= 1
    ensures var s' := Perform(s, [ExecTest(t), ExecStrip(t)]);
            Inv(s') && SoleHolderOf(s', t, Stripped(TableOf(s, t))) && OthersAsBefore(s, s', t)
  {
    hide Inv, Stripped, SoleHolderOf, Perform, Safe;
    SettledRelies(s, t);
    ExecStep(s, ExecTest(t));
    TakesOver(s, t);
    ExecFinished(Next(s, ExecTest(t)), t, TableOf(s, t));
    PerformNext(s, [ExecTest(t), ExecStrip(t)], [ExecStrip(t)]);
  }

  /** An undisturbed exec leaves its caller alone with a table without close-on-exec entries. */
  lemma ExecPerformed(s: State, t: nat)
    requires Settled(s) && Live(s, t)
    ensures var s' := Perform(s, ExecSteps(s, t));
            && Settled(s') && Live(s', t)
            && TableOf(s', t) == Stripped(TableOf(s, t))
            && (forall u :: u != t && Live(s', u) ==> !SameTable(s', t, u))
            && OthersAsBefore(s, s', t)
  {
    hide Inv, Stripped, Perform, TableOf;
    SettledRelies(s, t);
    if s.heap[s.threads[t].count].count > 1 {
      ExecOfSharer(s, t);
    } else {
      ExecOfSole(s, t);
    }
    SoleHolderAlone(Perform(s, ExecSteps(s, t)), t, Stripped(TableOf(s, t)));
  }

  lemma SoleHolderAlone(s: State, t: nat, table: Table)
    requires Inv(s) && SoleHolderOf(s, t, table)
    ensures TableOf(s, t) == table
    ensures forall u :: u != t && Live(s, u) ==> !SameTable(s, t, u)
  {
    hide Inv;
    forall u | u != t && Live(s, u) ensures !SameTable(s, t, u) {
      assert Shares(s.threads[t], s.threads[t].table) && Shares(s.threads[u], s.threads[u].table);
    }
  }

  // ---- clone ----

  /** A child that is cloned undisturbed has its parent's table, or a copy that is its alone. */
  lemma ClonePerformed(s: State, t: nat, child: nat, share: bool)
    requires Settled(s) && Live(s, t) && child !in s.threads
    ensures var s' := Perform(s, CloneSteps(t, child, share));
            && Settled(s') && Live(s', child)
            && TableOf(s', child) == TableOf(s, t)
            && (forall u :: u != child && Live(s', u) ==> (SameTable(s', child, u) <==> share && SameTable(s, t, u)))
            && OthersAsBefore(s, s', child)
  {
    hide Inv, Perform, Next;
    SettledRelies(s, t);
    LiveTablesBelow(s);
    var run := CloneSteps(t, child, share);
    var s1 := Next(s, run[0]);
    ClonedAndRegistered(s, t, child, share);
    StepKeepsInv(s, run[0]);
    StepKeepsInv(s1, run[1]);
    PerformNext(s, run, [run[1]]);
    PerformNext(s1, [run[1]], []);
    PerformNothing(Next(s1, run[1]));
  }

  lemma ClonedAndRegistered(s: State, t: nat, child: nat, share: bool)
    requires Live(s, t) && Trio(s.heap, s.threads[t]) && child !in s.threads
    requires forall id :: id in s.heap ==> id < s.next
    ensures var run := CloneSteps(t, child, share);
            && Enabled(s, run[0])
            && var s1 := Next(s, run[0]);
            && Enabled(s1, run[1])
            && var s' := Next(s1, run[1]);
            && child in s'.threads && s'.threads == s.threads[child := s'.threads[child]]
            && s'.threads[child].phase.Running?
            && s'.threads[child].table == (if share then s.threads[t].table else s.next)
            && TableOf(s', child) == TableOf(s, t)
            && forall id :: TableAt(s.heap, id) ==> Contents(s'.heap, id) == Contents(s.heap, id)
  {}

  lemma LiveTablesBelow(s: State)
    requires Settled(s)
    ensures forall u :: Live(s, u) ==> TableAt(s.heap, s.threads[u].table) && s.threads[u].table < s.next
  {
    hide Inv;
    forall u | Live(s, u) ensures TableAt(s.heap, s.threads[u].table) && s.threads[u].table < s.next {
      SettledRelies(s, u);
    }
  }

  // ---- exit ----

  predicate IsExit(a: Action) {
    a.ExitDec? || a.ExitFreeTable? || a.ExitFreeCount? || a.ExitFreeMutex?
  }

  lemma ExitStep(s: State, a: Action)
    requires Inv(s) && NobodyPending(s) && Enabled(s, a) && IsExit(a)
    ensures var s' := Next(s, a);
            Safe(s, a) && Inv(s') && NobodyPending(s') && a.t in s'.threads && OthersAsBefore(s, s', a.t)
  {
    hide Inv, Trio;
    assert Guard(s, a);
    StepKeepsInv(s, a);
    var s' := Next(s, a);
    forall u | u != a.t && Live(s, u) ensures TableOf(s', u) == TableOf(s, u) {
      RunnerHasTable(s, u);
      RunnerHasTable(s', u);
    }
  }

  lemma RunnerHasTable(s: State, u: nat)
    requires Inv(s) && Live(s, u)
    ensures TableAt(s.heap, s.threads[u].table)
  {}

  /** An undisturbed exit is seen by nobody else. */
  lemma ExitPerformed(s: State, t: nat)
    requires Settled(s) && Live(s, t)
    ensures var s' := Perform(s, ExitSteps(s, t));
            Settled(s') && !Live(s', t) && t in s'.threads && OthersAsBefore(s, s', t)
  {
    hide Inv, Perform, Safe, TableOf;
    SettledRelies(s, t);
    ExitStep(s, ExitDec(t));
    var s1 := Next(s, ExitDec(t));
    if s.heap[s.threads[t].count].count > 1 {
      PerformNext(s, [ExitDec(t)], []);
      PerformNothing(s1);
    } else {
      LastExit(s1, t);
      PerformNext(s, [ExitDec(t), ExitFreeTable(t), ExitFreeCount(t), ExitFreeMutex(t)],
                  [ExitFreeTable(t), ExitFreeCount(t), ExitFreeMutex(t)]);
    }
  }

  lemma LastExit(s: State, t: nat)
    requires Inv(s) && NobodyPending(s) && t in s.threads && s.threads[t].phase.FreeingTable?
    ensures var s' := Perform(s, [ExitFreeTable(t), ExitFreeCount(t), ExitFreeMutex(t)]);
            Inv(s') && t in s'.threads && s'.threads[t].phase.Gone? && OthersAsBefore(s, s', t)
  {
    hide Inv, Perform, Safe, TableOf, NobodyPending;
    ExitStep(s, ExitFreeTable(t));
    var s1 := Next(s, ExitFreeTable(t));
    ExitStep(s1, ExitFreeCount(t));
    var s2 := Next(s1, ExitFreeCount(t));
    ExitStep(s2, ExitFreeMutex(t));
    PerformNext(s, [ExitFreeTable(t), ExitFreeCount(t), ExitFreeMutex(t)], [ExitFreeCount(t), ExitFreeMutex(t)]);
    PerformNext(s1, [ExitFreeCount(t), ExitFreeMutex(t)], [ExitFreeMutex(t)]);
    PerformNext(s2, [ExitFreeMutex(t)], []);
    PerformNothing(Next(s2, ExitFreeMutex(t)));
  }
}
