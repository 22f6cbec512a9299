/** Waiting for pending children holds no thread up for good: from every state that guarded
    steps lead to, all threads can finish, and then everything is freed. */
module SharingProgress {
  import opened FdTables
  import opened Maps
  import opened Sharing
  import opened SharingSafety

  /** An upper bound for the steps that are left to a thread if it does not exec again. */
  function Rank(p: Phase): nat {
    match p
    case ExecCopying => 9
    case ExecCopied(_, _) => 8
    case ExecLast(_, _) => 7
    case ExecLeft(_, _) => 7
    case ExecReady(_, _) => 6
    case ExecStripping(_) => 5
    case PendingShared => 5
    case PendingCopy => 5
    case Running => 4
    case FreeingTable => 3
    case FreeingCount => 2
    case FreeingMutex => 1
    case Gone => 0
  }

  function Ranks(ts: Threads): map<nat, int> {
    map t | t in ts :: Rank(ts[t].phase)
  }

  ghost function Work(s: State): nat {
    RanksNotNegative(s.threads);
    Total(Ranks(s.threads))
  }

  lemma RanksNotNegative(ts: Threads)
    ensures Total(Ranks(ts)) >= 0
  {
    TotalNotNegative(Ranks(ts));
  }

  /** A step on the way out, of an exec or of a thread: nothing is cloned, opened or closed, and
      no exec begins. */
  predicate Unwinds(a: Action) {
    !a.Clone? && !a.Edit? && !a.ExecTest?
  }

  lemma MovedRank(s: State, a: Action)
    requires Enabled(s, a) && Safe(s, a) && Unwinds(a)
    ensures var s' := Effect(s, a);
            && a.t in s.threads && a.t in s'.threads
            && s'.threads == s.threads[a.t := s'.threads[a.t]]
            && Rank(s'.threads[a.t].phase) < Rank(s.threads[a.t].phase)
  {
    hide Bumped, Stripped, Edited, Contents;
  }

  /** Every such step brings the end nearer. */
  lemma StepUnwinds(s: State, a: Action)
    requires Inv(s) && Enabled(s, a) && Guard(s, a) && Unwinds(a)
    ensures Work(Next(s, a)) < Work(s)
  {
    hide Inv, Rank, Enabled, Guard, Effect;
    StepKeepsInv(s, a);
    MovedRank(s, a);
    var s' := Effect(s, a);
    assert Ranks(s'.threads) == Ranks(s.threads)[a.t := Rank(s'.threads[a.t].phase)];
    TotalUpdate(Ranks(s.threads), a.t, Rank(s'.threads[a.t].phase));
  }

  predicate AllGone(ts: Threads) {
    forall t :: t in ts ==> ts[t].phase.Gone?
  }

  /** What a thread does next if its tracee makes no more calls. */
  function NextOf(s: State, t: nat): Action
    requires t in s.threads && !s.threads[t].phase.Gone?
  {
    match s.threads[t].phase
    case PendingShared => Register(t)
    case PendingCopy => Register(t)
    case Running => ExitDec(t)
    case ExecCopying => ExecCopy(t)
    case ExecCopied(_, _) => ExecDec(t)
    case ExecLast(_, _) => ExecFreeOld(t)
    case ExecLeft(_, _) => ExecAlloc(t)
    case ExecReady(_, _) => ExecInstall(t)
    case ExecStripping(_) => ExecStrip(t)
    case FreeingTable => ExitFreeTable(t)
    case FreeingCount => ExitFreeCount(t)
    case FreeingMutex => ExitFreeMutex(t)
  }

  /** The guard never makes all threads wait: a child that others wait for can always go on. */
  lemma SomebodyGetsOn(s: State) returns (a: Action)
    requires !AllGone(s.threads)
    ensures Enabled(s, a) && Guard(s, a) && Unwinds(a)
  {
    var t :| t in s.threads && !s.threads[t].phase.Gone?;
    if c :| c in s.threads && s.threads[c].phase.PendingShared? {
      t := c;
    }
    a := NextOf(s, t);
  }

  predicate Unwinding(run: seq<Action>) {
    forall a :: a in run ==> Unwinds(a)
  }

  /** However the threads are scheduled under the guard, unwinding takes a bounded number of
      steps, and can stop only when all threads are gone. */
  lemma {:induction false} UnwindingEnds(s: State, run: seq<Action>)
    requires Inv(s) && Runs(s, run) && Guarded(s, run) && Unwinding(run)
    ensures var s' := Run(s, run);
            && |run| + Work(s') <= Work(s)
            && (AllGone(s'.threads) || exists a :: Enabled(s', a) && Guard(s', a) && Unwinds(a))
    decreases |run|
  {
    hide Inv, Next, Enabled, Guard, Unwinds, Work, AllGone;
    if run == [] {
      if !AllGone(s.threads) {
        var a := SomebodyGetsOn(s);
      }
    } else {
      assert run[0] in run;
      StepUnwinds(s, run[0]);
      StepKeepsInv(s, run[0]);
      UnwindingEnds(Next(s, run[0]), run[1..]);
    }
  }

  lemma {:induction false} AllCanFinish(s: State) returns (run: seq<Action>)
    requires Inv(s)
    ensures Runs(s, run) && Guarded(s, run) && Unwinding(run)
    ensures AllGone(Run(s, run).threads)
    decreases Work(s)
  {
    hide Inv, Next, Enabled, Guard, Unwinds, Work, AllGone;
    run := [];
    if !AllGone(s.threads) {
      var a := SomebodyGetsOn(s);
      StepUnwinds(s, a);
      StepKeepsInv(s, a);
      var rest := AllCanFinish(Next(s, a));
      run := [a] + rest;
      assert run[1..] == rest;
    }
  }

  lemma {:induction false} RunConcat(s: State, run: seq<Action>, rest: seq<Action>)
    requires Runs(s, run) && Guarded(s, run)
    requires Runs(Run(s, run), rest) && Guarded(Run(s, run), rest)
    ensures Runs(s, run + rest) && Guarded(s, run + rest)
    ensures Run(s, run + rest) == Run(Run(s, run), rest)
    decreases |run|
  {
    hide Enabled, Next, Guard;
    if run == [] {
      assert run + rest == rest;
    } else {
      assert (run + rest)[1..] == run[1..] + rest;
      RunConcat(Next(s, run[0]), run[1..], rest);
    }
  }

  /** Every guarded run can be continued until all threads are gone and all that was ever
      allocated has been freed, once. */
  lemma EverythingCanBeFreed(run: seq<Action>) returns (rest: seq<Action>)
    requires Runs(INIT, run) && Guarded(INIT, run)
    ensures Runs(INIT, run + rest) && Guarded(INIT, run + rest) && Unwinding(rest)
    ensures var s := Run(INIT, run + rest);
            && !s.crashed
            && AllGone(s.threads)
            && forall id: Id :: s.freed[id] == if id < s.next then 1 else 0
  {
    hide Inv, Runs, Run, Guarded, Unwinding;
    InitInv();
    RunKeepsInv(INIT, run);
    rest := AllCanFinish(Run(INIT, run));
    RunConcat(INIT, run, rest);
    GuardedRunsAreSafe(run + rest);
    NothingLeaks(run + rest);
  }
}
