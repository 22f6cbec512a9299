/** The fork/merge/join protocol gets to its end: no thread is ever stuck for good, and once
    nothing new is traced or spawned, every run ends with the report. */
module ForkJoinProgress {
  import opened ForkJoin
  import opened ForkJoinSafety
  import opened Maps
  import Files = FileStats
  import Calls = SyscallStats
  import FileLaws = FileStatLaws
  import FileOrder = FileStatOrder

  // ---- one thread ----

  /** A child waits for its parent, the main thread for the count, and who is done does nothing. */
  predicate Idle(s: State, t: nat)
    requires t in s.threads
  {
    var p := s.threads[t].phase;
    p.Announced? || p.Finished? || p.Reported? || (p.Waiting? && s.active != 0)
  }

  /** What the thread does next when its tracee has exited. */
  function NextOf(s: State, t: nat): Action
    requires t in s.threads && !Idle(s, t)
  {
    match s.threads[t].phase
    case Starting => Start(t)
    case Tracing => MergeFiles(t)
    case Creating(_) => Create(t)
    case Listing(_) => List(t)
    case FilesMerged => MergeCalls(t)
    case CallsMerged => Remove(t)
    case Removed => Leave(t)
    case Waiting => Poll(t)
    case Joining => Join(t)
  }

  /** Every thread that does not wait can take its next step at once, and is then in the
      phase after it; the main thread waits where the others count themselves out. */
  lemma EveryThreadGetsOn(s: State, t: nat)
    requires Inv(s) && t in s.threads && !Idle(s, t)
    ensures Enabled(s, NextOf(s, t))
    ensures t in Next(s, NextOf(s, t)).threads
    ensures Next(s, NextOf(s, t)).threads[t].phase
         == (match s.threads[t].phase
             case Starting => Tracing
             case Tracing => FilesMerged
             case Creating(child) => Listing(child)
             case Listing(_) => Tracing
             case FilesMerged => CallsMerged
             case CallsMerged => Removed
             case Removed => if t == MAIN then Waiting else Finished
             case Waiting => Joining
             case _ => Reported)
  {
    hide PrivateTables, MergedTables, OrdersRight, TracesRight, ActiveRight, ListRight, Files.Combined, Calls.Combined;
    if s.threads[t].phase.Creating? {
      assert Adds(s.threads[t].phase, s.threads[t].phase.child);
    }
  }

  /** While a thread traces, it can always go on to trace and spawn; the parent creates the
      child that it has announced, and the child starts. */
  lemma TracingIsNeverHeldUp(s: State, t: nat, child: nat, charge: Files.Charge, call: Calls.Call)
    requires Inv(s) && t in s.threads && s.threads[t].phase.Tracing? && child !in s.threads
    ensures Enabled(s, ForkJoin.Charge(t, charge)) && Enabled(s, Count(t, call)) && Enabled(s, Announce(t, child))
    ensures var s1 := Next(s, Announce(t, child));
            && s1.active == s.active + 1
            && Enabled(s1, Create(t))
            && var s2 := Next(s1, Create(t));
               && Enabled(s2, Start(child))
               && Enabled(s2, List(t))
               && Next(s2, List(t)).list == [child] + s.list
  {
    hide Inv;
  }

  // ---- all threads ----

  /** An upper bound for the steps that are left to a thread. */
  function Rank(p: Phase): nat {
    match p
    case Announced => 8
    case Creating(_) => 8
    case Starting => 7
    case Listing(_) => 7
    case Tracing => 6
    case FilesMerged => 5
    case CallsMerged => 4
    case Removed => 3
    case Waiting => 2
    case Joining => 1
    case Finished => 0
    case Reported => 0
  }

  function Ranks(ts: Tracers): map<nat, int> {
    map t | t in ts :: Rank(ts[t].phase)
  }

  ghost function Work(s: State): nat {
    RanksNotNegative(s.threads);
    Total(Ranks(s.threads))
  }

  lemma RanksNotNegative(ts: Tracers)
    ensures Total(Ranks(ts)) >= 0
  {
    TotalNotNegative(Ranks(ts));
  }

  /** A step of winding down: nothing new is traced or spawned, and polling a count that is
      not zero does not count. */
  predicate WindsDown(s: State, a: Action) {
    !a.Charge? && !a.Count? && !a.Announce? && (a.Poll? ==> s.active == 0)
  }

  lemma EnterWork(s: State, t: nat, phase: Phase)
    requires t in s.threads
    ensures Work(Enter(s, t, phase)) == Work(s) - Rank(s.threads[t].phase) + Rank(phase)
  {
    hide Rank;
    assert Ranks(Enter(s, t, phase).threads) == Ranks(s.threads)[t := Rank(phase)];
    TotalUpdate(Ranks(s.threads), t, Rank(phase));
  }

  lemma SameThreads(s: State, s': State)
    requires s.threads == s'.threads
    ensures Work(s) == Work(s')
  {}

  /** Every such step brings the end nearer. */
  lemma StepWindsDown(s: State, a: Action)
    requires Inv(s) && Enabled(s, a) && WindsDown(s, a)
    ensures Work(Next(s, a)) < Work(s)
  {
    hide Inv, Work, Files.Combined, Calls.Combined;
    var th := s.threads[a.t];
    match a
    case Create(t) =>
      ChildToCreate(s, t);
      EnterWork(s, th.phase.child, Starting);
      EnterWork(Enter(s, th.phase.child, Starting), t, Listing(th.phase.child));
    case List(t) =>
      SameThreads(s, s.(list := [th.phase.child] + s.list));
      EnterWork(s.(list := [th.phase.child] + s.list), t, Tracing);
    case Start(t) => EnterWork(s, t, Tracing);
    case MergeFiles(t) =>
      var s' := s.(files := Files.Combined(s.files, th.files), fileOrder := s.fileOrder + [t]);
      SameThreads(s, s');
      EnterWork(s', t, FilesMerged);
    case MergeCalls(t) =>
      var s' := s.(calls := Calls.Combined(s.calls, th.calls), callOrder := s.callOrder + [t]);
      SameThreads(s, s');
      EnterWork(s', t, CallsMerged);
    case Remove(t) => EnterWork(s, t, Removed);
    case Leave(t) =>
      EnterWork(s, t, Waiting);
      SameThreads(s, s.(active := s.active - 1));
      EnterWork(s.(active := s.active - 1), t, Finished);
    case Poll(t) => EnterWork(s, t, Joining);
    case Join(t) => EnterWork(s, t, Reported);
  }

  lemma ChildToCreate(s: State, t: nat)
    requires Inv(s) && t in s.threads && s.threads[t].phase.Creating?
    ensures var child := s.threads[t].phase.child;
            child in s.threads && child != t && s.threads[child].phase.Announced?
  {
    hide PrivateTables, MergedTables, OrdersRight, TracesRight, ActiveRight, ListRight;
    assert Adds(s.threads[t].phase, s.threads[t].phase.child);
  }

  /** The threads never wait for each other in a circle: before the report there is one that
      can go on. */
  lemma SomebodyGetsOn(s: State) returns (t: nat)
    requires Inv(s) && !s.threads[MAIN].phase.Reported?
    ensures t in s.threads && !Idle(s, t)
  {
    hide PrivateTables, MergedTables, OrdersRight, TracesRight;
    t := MAIN;
    if Idle(s, MAIN) {
      var unfinished := Unfinished(s.threads);
      assert unfinished != {};
      var u :| u in unfinished;
      if s.threads[u].phase.Announced? {
        assert BeingAdded(s.threads, u);
        t :| t in s.threads && Adds(s.threads[t].phase, u);
      } else {
        t := u;
      }
    }
  }

  predicate WindingDown(s: State, run: seq<Action>)
    requires Runs(s, run)
    decreases |run|
  {
    run != [] ==> WindsDown(s, run[0]) && WindingDown(Next(s, run[0]), run[1..])
  }

  /** However the threads are scheduled, winding down takes a bounded number of steps, and
      can stop only at the report. */
  lemma {:induction false} WindingDownEnds(s: State, run: seq<Action>)
    requires Inv(s) && Runs(s, run) && WindingDown(s, run)
    ensures var s' := Run(s, run);
            && |run| + Work(s') <= Work(s)
            && MAIN in s'.threads
            && (!s'.threads[MAIN].phase.Reported? ==> exists a :: Enabled(s', a) && WindsDown(s', a))
    decreases |run|
  {
    hide Inv, Next, Enabled, WindsDown, Work;
    InvRoles(s);
    if run == [] {
      if !s.threads[MAIN].phase.Reported? {
        var t := SomebodyGetsOn(s);
        EveryThreadGetsOn(s, t);
        NextWindsDown(s, t);
      }
    } else {
      StepWindsDown(s, run[0]);
      StepKeepsInv(s, run[0]);
      WindingDownEnds(Next(s, run[0]), run[1..]);
    }
  }

  lemma NextWindsDown(s: State, t: nat)
    requires t in s.threads && !Idle(s, t)
    ensures WindsDown(s, NextOf(s, t))
  {}

  /** From every state that can be reached there is a run to the report. */
  lemma {:induction false} ReportIsReached(s: State) returns (run: seq<Action>)
    requires Inv(s)
    ensures Runs(s, run) && WindingDown(s, run)
    ensures MAIN in Run(s, run).threads && Run(s, run).threads[MAIN].phase.Reported?
    decreases Work(s)
  {
    hide Inv, Next, Enabled, WindsDown, Work;
    InvRoles(s);
    run := [];
    if !s.threads[MAIN].phase.Reported? {
      var t := SomebodyGetsOn(s);
      var a := NextOf(s, t);
      EveryThreadGetsOn(s, t);
      NextWindsDown(s, t);
      StepWindsDown(s, a);
      StepKeepsInv(s, a);
      var rest := ReportIsReached(Next(s, a));
      run := [a] + rest;
      assert run[1..] == rest;
    }
  }

  lemma {:induction false} RunConcat(s: State, run: seq<Action>, rest: seq<Action>)
    requires Runs(s, run) && Runs(Run(s, run), rest)
    ensures Runs(s, run + rest) && Run(s, run + rest) == Run(Run(s, run), rest)
    decreases |run|
  {
    hide Enabled, Next;
    if run == [] {
      assert run + rest == rest;
    } else {
      assert (run + rest)[1..] == run[1..] + rest;
      RunConcat(Next(s, run[0]), run[1..], rest);
    }
  }

  lemma {:induction false} NothingAdded(run: seq<Action>, rest: seq<Action>)
    requires ChargesOf(rest) == [] && CallsOf(rest) == []
    ensures ChargesOf(run + rest) == ChargesOf(run)
    ensures CallsOf(run + rest) == CallsOf(run)
  {
    if run == [] {
      assert run + rest == rest;
    } else {
      assert (run + rest)[1..] == run[1..] + rest;
      NothingAdded(run[1..], rest);
    }
  }

  lemma {:induction false} WindingDownAddsNothing(s: State, run: seq<Action>)
    requires Runs(s, run) && WindingDown(s, run)
    ensures ChargesOf(run) == [] && CallsOf(run) == []
    decreases |run|
  {
    hide Enabled, Next;
    if run != [] {
      WindingDownAddsNothing(Next(s, run[0]), run[1..]);
    }
  }

  /** However the threads have been scheduled so far, the run can be continued to the report,
      and this is then the report on all that was traced. */
  lemma EveryRunCanReport(run: seq<Action>) returns (rest: seq<Action>)
    requires Runs(INIT, run)
    ensures Runs(INIT, run + rest)
    ensures Runs(Run(INIT, run), rest) && WindingDown(Run(INIT, run), rest)
    ensures var s := Run(INIT, run + rest);
            && MAIN in s.threads && s.threads[MAIN].phase.Reported?
            && Files.WellFormed(s.files) && Files.WellFormed(Files.TableOf(ChargesOf(run)))
            && FileLaws.Canon(s.files) == FileLaws.Canon(Files.TableOf(ChargesOf(run)))
            && (FileOrder.NoAliases(ChargesOf(run)) ==> s.files == Files.TableOf(ChargesOf(run)))
            && s.calls == Calls.TableOf(CallsOf(run))
  {
    hide Inv, Run, Runs, Files.TableOf, Calls.TableOf, FileLaws.Canon, Files.WellFormed, WindingDown;
    hide ChargesOf, CallsOf, FileOrder.NoAliases;
    InitInv();
    RunKeepsInv(INIT, run);
    rest := ReportIsReached(Run(INIT, run));
    RunConcat(INIT, run, rest);
    WindingDownAddsNothing(Run(INIT, run), rest);
    NothingAdded(run, rest);
    ReportIsScheduleIndependent(run + rest, ChargesOf(run), CallsOf(run));
  }
}
