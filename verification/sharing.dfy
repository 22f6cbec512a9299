/** The shared descriptor tables, their reference counts and their mutexes, as tracer
    threads clone, exec and exit in any interleaving. Every access to shared memory is a
    step of its own. */
module Sharing {
  import opened FdTables

  // ---- states ----

  type Id = nat

  datatype Cell =
    | TableCell(table: Table)
    | CountCell(count: int)
    | MutexCell

  /** How far a thread is. In the middle of an exec, copy is the table copied so far and
      snap records its contents when it was taken over. */
  datatype Phase =
    | PendingShared                          // created with CLONE_FILES, count not raised yet
    | PendingCopy                            // created with a table of its own
    | Running
    | ExecCopying                            // the count was more than one
    | ExecCopied(copy: Id, snap: Table)      // the copy is made
    | ExecLast(copy: Id, snap: Table)        // this decrement was the last one
    | ExecLeft(copy: Id, snap: Table)        // other sharers are left
    | ExecReady(copy: Id, snap: Table)       // count and mutex for the copy are there
    | ExecStripping(snap: Table)             // only the close-on-exec entries remain to be removed
    | FreeingTable | FreeingCount | FreeingMutex
    | Gone

  /** What a thread's temporaries point to. */
  datatype Thread = Thread(phase: Phase, table: Id, count: Id, mutex: Id)

  type Threads = map<nat, Thread>

  type Heap = map<Id, Cell>

  /** Ids below next have been allocated; freed counts the calls of free for each. */
  datatype State = State(heap: Heap, next: Id, freed: multiset<Id>, threads: Threads, crashed: bool)

  const INIT := State(
    map[0 := TableCell(INITIAL), 1 := CountCell(1), 2 := MutexCell], 3, multiset{},
    map[0 := Thread(Running, 0, 1, 2)], false)

  // ---- steps ----

  datatype Action =
    | Clone(t: nat, child: nat, shareFiles: bool)
    | Register(t: nat)
    | Edit(t: nat, edit: Edit)
    | ExecTest(t: nat)
    | ExecCopy(t: nat)
    | ExecDec(t: nat)
    | ExecFreeOld(t: nat)
    | ExecAlloc(t: nat)
    | ExecInstall(t: nat)
    | ExecStrip(t: nat)
    | ExitDec(t: nat)
    | ExitFreeTable(t: nat)
    | ExitFreeCount(t: nat)
    | ExitFreeMutex(t: nat)

  predicate TableAt(h: Heap, id: Id) { id in h && h[id].TableCell? }

  predicate CountAt(h: Heap, id: Id) { id in h && h[id].CountCell? }

  predicate MutexAt(h: Heap, id: Id) { id in h && h[id].MutexCell? }

  function Contents(h: Heap, id: Id): Table {
    if TableAt(h, id) then h[id].table else map[]
  }

  /** The step is the thread's next one. */
  predicate Enabled(s: State, a: Action) {
    && a.t in s.threads
    && var th := s.threads[a.t];
       match a
       case Clone(_, child, _) => th.phase.Running? && child !in s.threads
       case Register(_) => th.phase.PendingShared? || th.phase.PendingCopy?
       case Edit(_, e) =>
         th.phase.Running? && !e.Strip? && (TableAt(s.heap, th.table) ==> Defined(Contents(s.heap, th.table), e))
       case ExecTest(_) => th.phase.Running?
       case ExecCopy(_) => th.phase.ExecCopying?
       case ExecDec(_) => th.phase.ExecCopied?
       case ExecFreeOld(_) => th.phase.ExecLast?
       case ExecAlloc(_) => th.phase.ExecLeft?
       case ExecInstall(_) => th.phase.ExecReady?
       case ExecStrip(_) => th.phase.ExecStripping?
       case ExitDec(_) => th.phase.Running?
       case ExitFreeTable(_) => th.phase.FreeingTable?
       case ExitFreeCount(_) => th.phase.FreeingCount?
       case ExitFreeMutex(_) => th.phase.FreeingMutex?
  }

  /** Everything the step reads, writes or frees is allocated and not yet freed. */
  predicate Safe(s: State, a: Action)
    requires Enabled(s, a)
  {
    var h, th := s.heap, s.threads[a.t];
    match a
    case Clone(_, _, shareFiles) => !shareFiles ==> TableAt(h, th.table) && MutexAt(h, th.mutex)
    case Register(_) => th.phase.PendingShared? ==> CountAt(h, th.count)
    case Edit(_, _) => TableAt(h, th.table) && MutexAt(h, th.mutex)
    case ExecTest(_) => CountAt(h, th.count)
    case ExecCopy(_) => TableAt(h, th.table) && MutexAt(h, th.mutex)
    case ExecDec(_) => CountAt(h, th.count)
    case ExecFreeOld(_) => TableAt(h, th.table)
    case ExecAlloc(_) => true
    case ExecInstall(_) => CountAt(h, th.count)
    case ExecStrip(_) => TableAt(h, th.table) && MutexAt(h, th.mutex)
    case ExitDec(_) => CountAt(h, th.count)
    case ExitFreeTable(_) => TableAt(h, th.table)
    case ExitFreeCount(_) => CountAt(h, th.count)
    case ExitFreeMutex(_) => MutexAt(h, th.mutex)
  }

  function Bumped(h: Heap, id: Id, delta: int): Heap
    requires CountAt(h, id)
  {
    h[id := CountCell(h[id].count + delta)]
  }

  function Moved(s: State, t: nat, th: Thread): State {
    s.(threads := s.threads[t := th])
  }

  function Freed(s: State, id: Id): State {
    s.(heap := s.heap - {id}, freed := s.freed + multiset{id})
  }

  /** A step that touches freed memory crashes the tracer. */
  function Next(s: State, a: Action): State
    requires Enabled(s, a)
  {
    if !Safe(s, a) then s.(crashed := true) else Effect(s, a)
  }

  function Effect(s: State, a: Action): State
    requires Enabled(s, a) && Safe(s, a)
  {
    var h, th := s.heap, s.threads[a.t];
    match a
    case Clone(t, child, shareFiles) =>
      if shareFiles then Moved(s, child, th.(phase := PendingShared))
      else Moved(s.(heap := h[s.next := h[th.table]], next := s.next + 1), child, Thread(PendingCopy, s.next, 0, 0))
    case Register(t) =>
      if th.phase.PendingShared? then
        Moved(s.(heap := Bumped(h, th.count, 1)), t, th.(phase := Running))
      else
        Moved(s.(heap := h[s.next := CountCell(1)][s.next + 1 := MutexCell], next := s.next + 2),
              t, Thread(Running, th.table, s.next, s.next + 1))
    case Edit(t, e) =>
      s.(heap := h[th.table := TableCell(Edited(h[th.table].table, e))])
    case ExecTest(t) =>
      if h[th.count].count > 1 then Moved(s, t, th.(phase := ExecCopying))
      else Moved(s, t, th.(phase := ExecStripping(Contents(h, th.table))))
    case ExecCopy(t) =>
      Moved(s.(heap := h[s.next := h[th.table]], next := s.next + 1),
            t, th.(phase := ExecCopied(s.next, h[th.table].table)))
    case ExecDec(t) =>
      var phase := if h[th.count].count == 1 then ExecLast(th.phase.copy, th.phase.snap)
                   else ExecLeft(th.phase.copy, th.phase.snap);
      Moved(s.(heap := Bumped(h, th.count, -1)), t, th.(phase := phase))
    case ExecFreeOld(t) =>
      Moved(Freed(s, th.table), t, th.(phase := ExecReady(th.phase.copy, th.phase.snap)))
    case ExecAlloc(t) =>
      Moved(s.(heap := h[s.next := CountCell(0)][s.next + 1 := MutexCell], next := s.next + 2),
            t, Thread(ExecReady(th.phase.copy, th.phase.snap), th.table, s.next, s.next + 1))
    case ExecInstall(t) =>
      Moved(s.(heap := Bumped(h, th.count, 1)),
            t, Thread(ExecStripping(th.phase.snap), th.phase.copy, th.count, th.mutex))
    case ExecStrip(t) =>
      Moved(s.(heap := h[th.table := TableCell(Stripped(h[th.table].table))]), t, th.(phase := Running))
    case ExitDec(t) =>
      Moved(s.(heap := Bumped(h, th.count, -1)), t, th.(phase := if h[th.count].count == 1 then FreeingTable else Gone))
    case ExitFreeTable(t) => Moved(Freed(s, th.table), t, th.(phase := FreeingCount))
    case ExitFreeCount(t) => Moved(Freed(s, th.count), t, th.(phase := FreeingMutex))
    case ExitFreeMutex(t) => Moved(Freed(s, th.mutex), t, th.(phase := Gone))
  }

  // ---- who holds what ----

  /** Has raised its count and not lowered it again. */
  predicate Counted(p: Phase) {
    p.Running? || p.ExecCopying? || p.ExecCopied? || p.ExecStripping?
  }

  /** Uses its table, count and mutex together with others. */
  predicate Sharer(p: Phase) {
    p.PendingShared? || p.Running? || p.ExecCopying? || p.ExecCopied?
  }

  predicate Shares(th: Thread, id: Id) {
    Sharer(th.phase) && (id == th.table || id == th.count || id == th.mutex)
  }

  /** What the thread alone may touch. */
  predicate Owns(th: Thread, id: Id) {
    match th.phase
    case PendingCopy => id == th.table
    case ExecCopied(copy, _) => id == copy
    case ExecLast(copy, _) => id == copy || id == th.table || id == th.count || id == th.mutex
    case ExecLeft(copy, _) => id == copy
    case ExecReady(copy, _) => id == copy || id == th.count || id == th.mutex
    case ExecStripping(_) => id == th.table || id == th.count || id == th.mutex
    case FreeingTable => id == th.table || id == th.count || id == th.mutex
    case FreeingCount => id == th.count || id == th.mutex
    case FreeingMutex => id == th.mutex
    case _ => false
  }

  ghost function Holders(ts: Threads, count: Id): set<nat> {
    set t | t in ts && Counted(ts[t].phase) && ts[t].count == count
  }

  /** Some child has been handed the count but has not raised it yet. */
  ghost predicate PendingOn(ts: Threads, count: Id) {
    exists t :: t in ts && ts[t].phase.PendingShared? && ts[t].count == count
  }

  /** What has to be awaited while a child is pending: no decrement takes its count to
      zero, and no exec takes a count of one for sole ownership. */
  ghost predicate Guard(s: State, a: Action)
    requires Enabled(s, a)
  {
    (a.ExecTest? || a.ExecDec? || a.ExitDec?) ==>
      var count := s.threads[a.t].count;
      CountAt(s.heap, count) && s.heap[count].count == 1 ==> !PendingOn(s.threads, count)
  }

  function Run(s: State, run: seq<Action>): State
    requires Runs(s, run)
    decreases |run|
  {
    if run == [] then s else Run(Next(s, run[0]), run[1..])
  }

  predicate Runs(s: State, run: seq<Action>)
    decreases |run|
  {
    run != [] ==> Enabled(s, run[0]) && Runs(Next(s, run[0]), run[1..])
  }

  ghost predicate Guarded(s: State, run: seq<Action>)
    requires Runs(s, run)
    decreases |run|
  {
    run != [] ==> Guard(s, run[0]) && Guarded(Next(s, run[0]), run[1..])
  }
}
