/** Tracer threads that collect statistics on their own, merge them and count themselves
    out, and a main thread that waits for the count to drop to zero and joins them. */
module ForkJoin {
  import Files = FileStats
  import Calls = SyscallStats

  const MAIN: nat := 0

  datatype Phase =
    | Announced             // counted as active, its thread is not created yet
    | Starting              // created, but not tracing yet
    | Tracing
    | Creating(child: nat)  // has counted the child as active
    | Listing(child: nat)   // has created the child's thread, which is not in the list yet
    | FilesMerged
    | CallsMerged
    | Removed               // its temporaries are gone
    | Finished              // has counted itself out
    | Waiting               // the main thread polls the count
    | Joining               // the main thread has read zero
    | Reported

  datatype Tracer = Tracer(phase: Phase, files: Files.FileTable, calls: Calls.SyscallTable)

  type Tracers = map<nat, Tracer>

  /** active, list, files and calls are what the threads share. The traces record all events
      in the order in which they happened, the orders who merged when. */
  datatype State = State(
    active: int,
    threads: Tracers,
    list: seq<nat>,
    files: Files.FileTable,
    calls: Calls.SyscallTable,
    fileTrace: seq<(nat, Files.Charge)>,
    callTrace: seq<(nat, Calls.Call)>,
    fileOrder: seq<nat>,
    callOrder: seq<nat>)

  const INIT := State(0, map[MAIN := Tracer(Tracing, Files.FRESH, map[])], [], Files.FRESH, map[], [], [], [], [])

  datatype Action =
    | Charge(t: nat, charge: Files.Charge)
    | Count(t: nat, call: Calls.Call)
    | Announce(t: nat, child: nat)
    | Create(t: nat)
    | List(t: nat)
    | Start(t: nat)
    | MergeFiles(t: nat)
    | MergeCalls(t: nat)
    | Remove(t: nat)
    | Leave(t: nat)
    | Poll(t: nat)
    | Join(t: nat)

  predicate Enabled(s: State, a: Action) {
    && a.t in s.threads
    && var phase := s.threads[a.t].phase;
       match a
       case Charge(_, _) => phase.Tracing?
       case Count(_, _) => phase.Tracing?
       case Announce(_, child) => phase.Tracing? && child !in s.threads
       case Create(_) => phase.Creating? && phase.child in s.threads
       case List(_) => phase.Listing?
       case Start(_) => phase.Starting?
       case MergeFiles(_) => phase.Tracing?
       case MergeCalls(_) => phase.FilesMerged?
       case Remove(_) => phase.CallsMerged?
       case Leave(_) => phase.Removed?
       case Poll(_) => phase.Waiting?
       case Join(_) => phase.Joining?
  }

  function Enter(s: State, t: nat, phase: Phase): State
    requires t in s.threads
  {
    s.(threads := s.threads[t := s.threads[t].(phase := phase)])
  }

  function Next(s: State, a: Action): State
    requires Enabled(s, a)
  {
    var th := s.threads[a.t];
    match a
    case Charge(t, c) =>
      s.(threads := s.threads[t := th.(files := Files.Charged(th.files, c))], fileTrace := s.fileTrace + [(t, c)])
    case Count(t, c) =>
      s.(threads := s.threads[t := th.(calls := Calls.Counted(th.calls, c))], callTrace := s.callTrace + [(t, c)])
    case Announce(t, child) =>
      s.(active := s.active + 1,
         threads := s.threads[child := Tracer(Announced, Files.FRESH, map[])][t := th.(phase := Creating(child))])
    case Create(t) =>
      Enter(Enter(s, th.phase.child, Starting), t, Listing(th.phase.child))
    case List(t) =>
      Enter(s.(list := [th.phase.child] + s.list), t, Tracing)
    case Start(t) =>
      Enter(s, t, Tracing)
    case MergeFiles(t) =>
      Enter(s.(files := Files.Combined(s.files, th.files), fileOrder := s.fileOrder + [t]), t, FilesMerged)
    case MergeCalls(t) =>
      Enter(s.(calls := Calls.Combined(s.calls, th.calls), callOrder := s.callOrder + [t]), t, CallsMerged)
    case Remove(t) =>
      Enter(s, t, Removed)
    case Leave(t) =>
      if t == MAIN then Enter(s, t, Waiting) else Enter(s.(active := s.active - 1), t, Finished)
    case Poll(t) =>
      if s.active == 0 then Enter(s, t, Joining) else s
    case Join(t) =>
      Enter(s, t, Reported)
  }

  predicate Runs(s: State, run: seq<Action>)
    decreases |run|
  {
    run != [] ==> Enabled(s, run[0]) && Runs(Next(s, run[0]), run[1..])
  }

  function Run(s: State, run: seq<Action>): State
    requires Runs(s, run)
    decreases |run|
  {
    if run == [] then s else Run(Next(s, run[0]), run[1..])
  }

  predicate HasMergedFiles(p: Phase) {
    p.FilesMerged? || HasMergedCalls(p)
  }

  predicate HasMergedCalls(p: Phase) {
    p.CallsMerged? || p.Removed? || p.Finished? || p.Waiting? || p.Joining? || p.Reported?
  }

  /** The threads that active counts. */
  ghost function Unfinished(ts: Tracers): set<nat> {
    set t | t in ts && t != MAIN && !ts[t].phase.Finished?
  }

  /** The parent is between counting the child and listing it. */
  predicate Adds(p: Phase, child: nat) {
    (p.Creating? && p.child == child) || (p.Listing? && p.child == child)
  }
}
