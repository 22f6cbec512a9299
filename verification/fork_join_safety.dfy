/** What holds in every run of the fork/merge/join protocol. */
module ForkJoinSafety {
  import opened ForkJoin
  import opened Maps
  import opened Traces
  import Files = FileStats
  import Calls = SyscallStats
  import FileLaws = FileStatLaws
  import FileOrder = FileStatOrder

  // ---- the invariant ----

  /** Only the main thread waits and joins, only the others are announced, started and finished. */
  ghost predicate RolesKept(ts: Tracers) {
    && MAIN in ts
    && forall t :: t in ts ==>
         var p := ts[t].phase;
         if t == MAIN then !p.Announced? && !p.Starting? && !p.Finished?
         else !p.Waiting? && !p.Joining? && !p.Reported?
  }

  /** A thread's own tables are those of its own events. */
  ghost predicate PrivateTables(s: State) {
    forall t :: t in s.threads ==>
      && s.threads[t].files == Files.TableOf(Of(s.fileTrace, t))
      && s.threads[t].calls == Calls.TableOf(Of(s.callTrace, t))
  }

  /** The merged tables are those of the events of all threads that have merged. */
  ghost predicate MergedTables(s: State) {
    && s.files == Files.TableOf(Grouped(s.fileTrace, s.fileOrder))
    && s.calls == Calls.TableOf(Grouped(s.callTrace, s.callOrder))
  }

  ghost predicate OrdersRight(s: State) {
    && Distinct(s.fileOrder) && Distinct(s.callOrder)
    && (forall t :: t in s.fileOrder <==> t in s.threads && HasMergedFiles(s.threads[t].phase))
    && (forall t :: t in s.callOrder <==> t in s.threads && HasMergedCalls(s.threads[t].phase))
  }

  ghost predicate TracesRight(s: State) {
    && (forall i :: 0 <= i < |s.fileTrace| ==> s.fileTrace[i].0 in s.threads)
    && (forall i :: 0 <= i < |s.callTrace| ==> s.callTrace[i].0 in s.threads)
  }

  ghost predicate ActiveRight(s: State) {
    s.active == |Unfinished(s.threads)|
  }

  /** A child that is being added is in no list yet. */
  ghost predicate AddedIsNew(s: State) {
    forall p, c {:trigger Adds(s.threads[p].phase, c)} :: p in s.threads && Adds(s.threads[p].phase, c) ==>
      c in s.threads && c != MAIN && c != p && c !in s.list
      && (s.threads[p].phase.Creating? <==> s.threads[c].phase.Announced?)
  }

  /** Only one parent adds a child. */
  ghost predicate AddedOnce(ts: Tracers) {
    forall p, q, c {:trigger Adds(ts[p].phase, c), Adds(ts[q].phase, c)} ::
      p in ts && q in ts && Adds(ts[p].phase, c) && Adds(ts[q].phase, c) ==> p == q
  }

  ghost predicate AddingRight(s: State) {
    AddedIsNew(s) && AddedOnce(s.threads)
  }

  ghost predicate BeingAdded(ts: Tracers, c: nat) {
    exists p :: p in ts && Adds(ts[p].phase, c)
  }

  /** Every thread but the main one is in the list, once, or is about to be put there. */
  ghost predicate ListRight(s: State) {
    && Distinct(s.list)
    && (forall c :: c in s.list ==> c in s.threads && c != MAIN && !s.threads[c].phase.Announced?)
    && (forall c :: c in s.threads && c != MAIN ==> c in s.list || BeingAdded(s.threads, c))
  }

  ghost predicate JoinsLate(s: State) {
    MAIN in s.threads && (s.threads[MAIN].phase.Joining? || s.threads[MAIN].phase.Reported?) ==> s.active == 0
  }

  ghost predicate Inv(s: State) {
    && RolesKept(s.threads)
    && PrivateTables(s)
    && MergedTables(s)
    && OrdersRight(s)
    && TracesRight(s)
    && ActiveRight(s)
    && AddingRight(s)
    && ListRight(s)
    && JoinsLate(s)
  }

  lemma InitInv()
    ensures Inv(INIT)
  {
    assert Unfinished(INIT.threads) == {};
  }

  // ---- statistics: private, merged, traced ----

  ghost predicate Tables(s: State) {
    PrivateTables(s) && MergedTables(s) && OrdersRight(s) && TracesRight(s)
  }

  /** Moving on within tracing, or after merging, does not touch the statistics. */
  lemma EnterTables(s: State, t: nat, phase: Phase)
    requires Tables(s) && t in s.threads
    requires HasMergedFiles(phase) <==> HasMergedFiles(s.threads[t].phase)
    requires HasMergedCalls(phase) <==> HasMergedCalls(s.threads[t].phase)
    ensures Tables(Enter(s, t, phase))
  {
    hide Files.TableOf, Calls.TableOf, Of, Grouped, Distinct, HasMergedFiles, HasMergedCalls;
  }

  lemma SharedFieldsAside(s: State, active: int, list: seq<nat>)
    requires Tables(s)
    ensures Tables(s.(active := active, list := list))
  {
    hide Files.TableOf, Calls.TableOf, Of, Grouped, Distinct, HasMergedFiles, HasMergedCalls;
  }

  lemma ChargeTables(s: State, t: nat, c: Files.Charge)
    requires Tables(s) && t in s.threads && s.threads[t].phase.Tracing?
    ensures Tables(s.(threads := s.threads[t := s.threads[t].(files := Files.Charged(s.threads[t].files, c))],
                      fileTrace := s.fileTrace + [(t, c)]))
  {
    hide Files.TableOf, Calls.TableOf, Files.Charged, Calls.Counted, Of, Grouped, Distinct;
    var trace' := s.fileTrace + [(t, c)];
    forall u ensures u in s.threads ==>
      Files.TableOf(Of(trace', u)) == if u == t then Files.Charged(s.threads[u].files, c) else s.threads[u].files
    {
      OfAppend(s.fileTrace, t, c, u);
      TableOfAppend(Of(s.fileTrace, u), c);
    }
    assert t !in s.fileOrder;
    GroupedOthers(s.fileTrace, t, c, s.fileOrder);
  }

  lemma TableOfAppend(cs: seq<Files.Charge>, c: Files.Charge)
    ensures Files.TableOf(cs + [c]) == Files.Charged(Files.TableOf(cs), c)
  {
    hide Files.Charged;
    assert (cs + [c])[..|cs|] == cs;
  }

  lemma CountTables(s: State, t: nat, c: Calls.Call)
    requires Tables(s) && t in s.threads && s.threads[t].phase.Tracing?
    ensures Tables(s.(threads := s.threads[t := s.threads[t].(calls := Calls.Counted(s.threads[t].calls, c))],
                      callTrace := s.callTrace + [(t, c)]))
  {
    hide Files.TableOf, Calls.TableOf, Files.Charged, Calls.Counted, Of, Grouped, Distinct;
    var trace' := s.callTrace + [(t, c)];
    forall u ensures u in s.threads ==>
      Calls.TableOf(Of(trace', u)) == if u == t then Calls.Counted(s.threads[u].calls, c) else s.threads[u].calls
    {
      OfAppend(s.callTrace, t, c, u);
      CallTableOfAppend(Of(s.callTrace, u), c);
    }
    assert t !in s.callOrder;
    GroupedOthers(s.callTrace, t, c, s.callOrder);
  }

  lemma CallTableOfAppend(cs: seq<Calls.Call>, c: Calls.Call)
    ensures Calls.TableOf(cs + [c]) == Calls.Counted(Calls.TableOf(cs), c)
  {
    hide Calls.Counted;
    assert (cs + [c])[..|cs|] == cs;
  }

  /** A thread that does not exist yet has no events. */
  lemma {:induction false} NoEvents<T>(trace: seq<(nat, T)>, t: nat)
    requires forall i :: 0 <= i < |trace| ==> trace[i].0 != t
    ensures Of(trace, t) == []
  {
    if trace != [] {
      NoEvents(trace[..|trace| - 1], t);
    }
  }

  lemma NothingYet()
    ensures Files.TableOf([]) == Files.FRESH && Calls.TableOf([]) == map[]
    ensures !HasMergedFiles(Announced) && !HasMergedCalls(Announced)
  {}

  lemma AnnounceTables(s: State, child: nat)
    requires Tables(s) && child !in s.threads
    ensures Tables(s.(threads := s.threads[child := Tracer(Announced, Files.FRESH, map[])]))
  {
    hide Of, Grouped, Distinct, Files.TableOf, Calls.TableOf, HasMergedFiles, HasMergedCalls;
    NothingYet();
    NoEvents(s.fileTrace, child);
    NoEvents(s.callTrace, child);
  }

  lemma AppendDistinct(order: seq<nat>, t: nat)
    requires Distinct(order) && t !in order
    ensures Distinct(order + [t]) && Distinct([t] + order)
    ensures (order + [t])[..|order|] == order
    ensures forall u :: u in order + [t] <==> u in order || u == t
  {}

  lemma GroupedOneMore<T>(trace: seq<(nat, T)>, order: seq<nat>, t: nat)
    ensures Grouped(trace, order + [t]) == Grouped(trace, order) + Of(trace, t)
  {
    assert (order + [t])[..|order|] == order;
  }

  lemma MergeFilesTables(s: State, t: nat)
    requires Tables(s) && t in s.threads && s.threads[t].phase.Tracing?
    ensures var s' := s.(files := Files.Combined(s.files, s.threads[t].files), fileOrder := s.fileOrder + [t]);
            Tables(Enter(s', t, FilesMerged))
  {
    hide Files.Combined, Files.TableOf, Calls.TableOf, Of, Grouped, Distinct;
    assert t !in s.fileOrder;
    AppendDistinct(s.fileOrder, t);
    GroupedOneMore(s.fileTrace, s.fileOrder, t);
    FileLaws.MergeIsHomomorphism(Grouped(s.fileTrace, s.fileOrder), Of(s.fileTrace, t));
  }

  lemma MergeCallsTables(s: State, t: nat)
    requires Tables(s) && t in s.threads && s.threads[t].phase.FilesMerged?
    ensures var s' := s.(calls := Calls.Combined(s.calls, s.threads[t].calls), callOrder := s.callOrder + [t]);
            Tables(Enter(s', t, CallsMerged))
  {
    hide Calls.Combined, Files.TableOf, Calls.TableOf, Of, Grouped, Distinct;
    assert t !in s.callOrder;
    AppendDistinct(s.callOrder, t);
    GroupedOneMore(s.callTrace, s.callOrder, t);
    Calls.MergeIsHomomorphism(Grouped(s.callTrace, s.callOrder), Of(s.callTrace, t));
  }

  lemma StepTables(s: State, a: Action)
    requires Tables(s) && AddingRight(s) && Enabled(s, a)
    ensures Tables(Next(s, a))
  {
    hide Tables, Files.Combined, Calls.Combined, Files.Charged, Calls.Counted, AddingRight;
    var th := s.threads[a.t];
    match a
    case Charge(t, c) => ChargeTables(s, t, c);
    case Count(t, c) => CountTables(s, t, c);
    case Announce(t, child) =>
      AnnounceTables(s, child);
      var s1 := s.(threads := s.threads[child := Tracer(Announced, Files.FRESH, map[])]);
      EnterTables(s1, t, Creating(child));
      SharedFieldsAside(Enter(s1, t, Creating(child)), s.active + 1, s.list);
    case Create(t) =>
      ChildIsAnnounced(s, t);
      EnterTables(s, th.phase.child, Starting);
      EnterTables(Enter(s, th.phase.child, Starting), t, Listing(th.phase.child));
    case List(t) =>
      SharedFieldsAside(s, s.active, [th.phase.child] + s.list);
      EnterTables(s.(list := [th.phase.child] + s.list), t, Tracing);
    case Start(t) => EnterTables(s, t, Tracing);
    case MergeFiles(t) => MergeFilesTables(s, t);
    case MergeCalls(t) => MergeCallsTables(s, t);
    case Remove(t) => EnterTables(s, t, Removed);
    case Leave(t) =>
      SharedFieldsAside(s, s.active - 1, s.list);
      if t == MAIN { EnterTables(s, t, Waiting); } else { EnterTables(s.(active := s.active - 1), t, Finished); }
    case Poll(t) => if s.active == 0 { EnterTables(s, t, Joining); }
    case Join(t) => EnterTables(s, t, Reported);
  }

  lemma ChildIsAnnounced(s: State, t: nat)
    requires AddingRight(s) && t in s.threads && s.threads[t].phase.Creating?
    ensures var c := s.threads[t].phase.child; c in s.threads && c != t && s.threads[c].phase.Announced?
  {
    assert Adds(s.threads[t].phase, s.threads[t].phase.child);
  }

  // ---- roles, the count, the list ----

  ghost predicate Control(s: State) {
    RolesKept(s.threads) && ActiveRight(s) && AddingRight(s) && ListRight(s)
  }

  /** The phases between which a thread moves without counting or adding anybody. */
  predicate Plain(p: Phase) {
    !p.Announced? && !p.Creating? && !p.Listing? && !p.Finished?
  }

  /** Whoever was being added still is, but possibly one child. */
  lemma StillAdded(ts: Tracers, ts': Tracers, child: nat)
    requires forall p, c :: p in ts && Adds(ts[p].phase, c) && c != child ==> p in ts' && Adds(ts'[p].phase, c)
    ensures forall c :: c != child && BeingAdded(ts, c) ==> BeingAdded(ts', c)
  {
    forall c | c != child && BeingAdded(ts, c) ensures BeingAdded(ts', c) {
      var p :| p in ts && Adds(ts[p].phase, c);
      assert Adds(ts'[p].phase, c);
    }
  }

  lemma IsAdded(ts: Tracers, p: nat, c: nat)
    requires p in ts && Adds(ts[p].phase, c)
    ensures BeingAdded(ts, c)
  {}

  lemma SamePhases(s: State, s': State)
    requires Control(s)
    requires (forall t :: t in s'.threads <==> t in s.threads) && s'.active == s.active && s'.list == s.list
    requires forall t :: t in s.threads ==> s'.threads[t].phase == s.threads[t].phase
    ensures Control(s')
  {
    hide Distinct, BeingAdded;
    SameSet(Unfinished(s'.threads), Unfinished(s.threads));
    StillAdded(s.threads, s'.threads, MAIN);
  }

  lemma EnterControl(s: State, t: nat, phase: Phase)
    requires Control(s) && t in s.threads && Plain(s.threads[t].phase) && Plain(phase)
    requires t == MAIN ==> !phase.Starting?
    requires t != MAIN ==> !phase.Waiting? && !phase.Joining? && !phase.Reported?
    ensures Control(Enter(s, t, phase))
  {
    hide ActiveRight, AddingRight, ListRight, RolesKept;
    EnterActive(s, t, phase);
    EnterAdding(s, t, phase);
    EnterList(s, t, phase);
  }

  lemma EnterActive(s: State, t: nat, phase: Phase)
    requires RolesKept(s.threads) && ActiveRight(s) && t in s.threads && Plain(s.threads[t].phase) && Plain(phase)
    requires t == MAIN ==> !phase.Starting?
    requires t != MAIN ==> !phase.Waiting? && !phase.Joining? && !phase.Reported?
    ensures RolesKept(Enter(s, t, phase).threads) && ActiveRight(Enter(s, t, phase))
  {
    SameSet(Unfinished(Enter(s, t, phase).threads), Unfinished(s.threads));
  }

  lemma EnterAdding(s: State, t: nat, phase: Phase)
    requires AddingRight(s) && t in s.threads && Plain(s.threads[t].phase) && Plain(phase)
    ensures AddingRight(Enter(s, t, phase))
  {}

  lemma EnterList(s: State, t: nat, phase: Phase)
    requires AddingRight(s) && ListRight(s) && t in s.threads && Plain(s.threads[t].phase) && Plain(phase)
    ensures ListRight(Enter(s, t, phase))
  {
    hide BeingAdded, Distinct;
    StillAdded(s.threads, Enter(s, t, phase).threads, MAIN);
  }

  lemma AnnounceControl(s: State, t: nat, child: nat)
    requires Control(s) && t in s.threads && s.threads[t].phase.Tracing? && child !in s.threads
    ensures Control(Next(s, Announce(t, child)))
  {
    hide ActiveRight, AddingRight, ListRight, RolesKept;
    AnnounceActive(s, t, child);
    AnnounceAdding(s, t, child);
    AnnounceList(s, t, child);
  }

  lemma AnnounceActive(s: State, t: nat, child: nat)
    requires RolesKept(s.threads) && ActiveRight(s)
    requires t in s.threads && s.threads[t].phase.Tracing? && child !in s.threads
    ensures RolesKept(Next(s, Announce(t, child)).threads) && ActiveRight(Next(s, Announce(t, child)))
  {
    AnnounceRoles(s, t, child);
    hide RolesKept;
    var s' := Next(s, Announce(t, child));
    assert child != MAIN by { MainIsThere(s.threads); }
    SameSet(Unfinished(s'.threads), Unfinished(s.threads) + {child});
  }

  lemma AnnounceRoles(s: State, t: nat, child: nat)
    requires RolesKept(s.threads) && t in s.threads && s.threads[t].phase.Tracing? && child !in s.threads
    ensures RolesKept(Next(s, Announce(t, child)).threads)
  {}

  lemma MainIsThere(ts: Tracers)
    requires RolesKept(ts)
    ensures MAIN in ts
  {}

  lemma AnnounceAdding(s: State, t: nat, child: nat)
    requires RolesKept(s.threads) && AddingRight(s) && ListRight(s)
    requires t in s.threads && s.threads[t].phase.Tracing? && child !in s.threads
    ensures AddingRight(Next(s, Announce(t, child)))
  {
    hide BeingAdded, Distinct, AddedIsNew, AddedOnce;
    AnnounceAddedIsNew(s, t, child);
    AnnounceAddedOnce(s, t, child);
  }

  lemma AnnounceAddedIsNew(s: State, t: nat, child: nat)
    requires RolesKept(s.threads) && AddingRight(s) && ListRight(s)
    requires t in s.threads && s.threads[t].phase.Tracing? && child !in s.threads
    ensures AddedIsNew(Next(s, Announce(t, child)))
  {
    hide BeingAdded, Distinct, AddedOnce;
  }

  lemma AnnounceAddedOnce(s: State, t: nat, child: nat)
    requires RolesKept(s.threads) && AddingRight(s) && ListRight(s)
    requires t in s.threads && s.threads[t].phase.Tracing? && child !in s.threads
    ensures AddedOnce(Next(s, Announce(t, child)).threads)
  {
    hide BeingAdded, Distinct;
  }

  lemma AnnounceList(s: State, t: nat, child: nat)
    requires RolesKept(s.threads) && AddingRight(s) && ListRight(s)
    requires t in s.threads && s.threads[t].phase.Tracing? && child !in s.threads
    ensures ListRight(Next(s, Announce(t, child)))
  {
    hide BeingAdded, Distinct;
    var s' := Next(s, Announce(t, child));
    IsAdded(s'.threads, t, child);
    StillAdded(s.threads, s'.threads, MAIN);
  }

  lemma CreateControl(s: State, t: nat)
    requires Control(s) && t in s.threads && s.threads[t].phase.Creating?
    ensures Enabled(s, Create(t))
    ensures Control(Next(s, Create(t)))
  {
    hide ActiveRight, AddingRight, ListRight, RolesKept;
    CreateActive(s, t);
    CreateAdding(s, t);
    CreateList(s, t);
  }

  lemma CreateActive(s: State, t: nat)
    requires RolesKept(s.threads) && AddingRight(s) && ActiveRight(s) && t in s.threads && s.threads[t].phase.Creating?
    ensures Enabled(s, Create(t))
    ensures RolesKept(Next(s, Create(t)).threads) && ActiveRight(Next(s, Create(t)))
  {
    ChildIsAnnounced(s, t);
    var s' := Next(s, Create(t));
    SameSet(Unfinished(s'.threads), Unfinished(s.threads));
  }

  lemma CreateAdding(s: State, t: nat)
    requires RolesKept(s.threads) && AddingRight(s) && ListRight(s) && t in s.threads && s.threads[t].phase.Creating?
    ensures Enabled(s, Create(t))
    ensures AddingRight(Next(s, Create(t)))
  {
    hide BeingAdded, Distinct, AddedIsNew, AddedOnce;
    CreateAddedIsNew(s, t);
    CreateAddedOnce(s, t);
  }

  lemma CreateAddedIsNew(s: State, t: nat)
    requires RolesKept(s.threads) && AddingRight(s) && ListRight(s) && t in s.threads && s.threads[t].phase.Creating?
    ensures Enabled(s, Create(t))
    ensures AddedIsNew(Next(s, Create(t)))
  {
    hide BeingAdded, Distinct;
    ChildIsAnnounced(s, t);
  }

  lemma CreateAddedOnce(s: State, t: nat)
    requires RolesKept(s.threads) && AddingRight(s) && ListRight(s) && t in s.threads && s.threads[t].phase.Creating?
    ensures Enabled(s, Create(t))
    ensures AddedOnce(Next(s, Create(t)).threads)
  {
    hide BeingAdded, Distinct;
    ChildIsAnnounced(s, t);
  }

  lemma CreateList(s: State, t: nat)
    requires RolesKept(s.threads) && AddingRight(s) && ListRight(s) && t in s.threads && s.threads[t].phase.Creating?
    ensures Enabled(s, Create(t))
    ensures ListRight(Next(s, Create(t)))
  {
    hide BeingAdded, Distinct;
    ChildIsAnnounced(s, t);
    var s' := Next(s, Create(t));
    StillAdded(s.threads, s'.threads, MAIN);
  }

  lemma ListControl(s: State, t: nat)
    requires Control(s) && t in s.threads && s.threads[t].phase.Listing?
    ensures Control(Next(s, List(t)))
  {
    hide ActiveRight, AddingRight, ListRight, RolesKept;
    ListActive(s, t);
    ListAdding(s, t);
    ListList(s, t);
  }

  lemma ListActive(s: State, t: nat)
    requires RolesKept(s.threads) && AddingRight(s) && ActiveRight(s) && t in s.threads && s.threads[t].phase.Listing?
    ensures RolesKept(Next(s, List(t)).threads) && ActiveRight(Next(s, List(t)))
  {
    var s' := Next(s, List(t));
    SameSet(Unfinished(s'.threads), Unfinished(s.threads));
  }

  lemma ListAdding(s: State, t: nat)
    requires RolesKept(s.threads) && AddingRight(s) && ListRight(s) && t in s.threads && s.threads[t].phase.Listing?
    ensures AddingRight(Next(s, List(t)))
  {
    hide BeingAdded, Distinct;
    var child := s.threads[t].phase.child;
    assert Adds(s.threads[t].phase, child);
  }

  lemma ListList(s: State, t: nat)
    requires RolesKept(s.threads) && AddingRight(s) && ListRight(s) && t in s.threads && s.threads[t].phase.Listing?
    ensures ListRight(Next(s, List(t)))
  {
    hide BeingAdded, Distinct;
    var child := s.threads[t].phase.child;
    assert Adds(s.threads[t].phase, child);
    var s' := Next(s, List(t));
    AppendDistinct(s.list, child);
    StillAdded(s.threads, s'.threads, child);
  }

  lemma LeaveControl(s: State, t: nat)
    requires Control(s) && t in s.threads && s.threads[t].phase.Removed? && t != MAIN
    ensures Control(Next(s, Leave(t)))
  {
    hide ActiveRight, AddingRight, ListRight, RolesKept;
    LeaveActive(s, t);
    LeaveList(s, t);
  }

  lemma LeaveActive(s: State, t: nat)
    requires RolesKept(s.threads) && ActiveRight(s) && t in s.threads && s.threads[t].phase.Removed? && t != MAIN
    ensures RolesKept(Next(s, Leave(t)).threads) && ActiveRight(Next(s, Leave(t)))
  {
    var s' := Next(s, Leave(t));
    assert t in Unfinished(s.threads);
    SameSet(Unfinished(s'.threads), Unfinished(s.threads) - {t});
  }

  lemma LeaveList(s: State, t: nat)
    requires AddingRight(s) && ListRight(s) && t in s.threads && s.threads[t].phase.Removed? && t != MAIN
    ensures AddingRight(Next(s, Leave(t))) && ListRight(Next(s, Leave(t)))
  {
    hide BeingAdded, Distinct;
    StillAdded(s.threads, Next(s, Leave(t)).threads, MAIN);
  }

  lemma StepControl(s: State, a: Action)
    requires Control(s) && Enabled(s, a)
    ensures Control(Next(s, a))
  {
    hide Control, Files.Combined, Calls.Combined, Files.Charged, Calls.Counted;
    RoleOf(s, a.t);
    match a
    case Charge(_, _) => SamePhases(s, Next(s, a));
    case Count(_, _) => SamePhases(s, Next(s, a));
    case Announce(t, child) => AnnounceControl(s, t, child);
    case Create(t) => CreateControl(s, t);
    case List(t) => ListControl(s, t);
    case Start(t) => EnterControl(s, t, Tracing);
    case MergeFiles(t) =>
      EnterControl(s, t, FilesMerged);
      SamePhases(Enter(s, t, FilesMerged), Next(s, a));
    case MergeCalls(t) =>
      EnterControl(s, t, CallsMerged);
      SamePhases(Enter(s, t, CallsMerged), Next(s, a));
    case Remove(t) => EnterControl(s, t, Removed);
    case Leave(t) => if t == MAIN { EnterControl(s, t, Waiting); } else { LeaveControl(s, t); }
    case Poll(t) => if s.active == 0 { EnterControl(s, t, Joining); }
    case Join(t) => EnterControl(s, t, Reported);
  }

  lemma RoleOf(s: State, t: nat)
    requires Control(s) && t in s.threads
    ensures s.threads[t].phase.Waiting? || s.threads[t].phase.Joining? ==> t == MAIN
    ensures s.threads[t].phase.Starting? ==> t != MAIN
  {}

  // ---- runs ----

  /** When active is zero and the main thread no longer traces, everybody else is done: all
      have merged, removed their temporaries and counted themselves out, and the join list
      has every one of them once, even those that finished before they were listed. */
  lemma AllDone(s: State)
    requires Inv(s) && s.active == 0 && HasMergedCalls(s.threads[MAIN].phase)
    ensures forall t :: t in s.threads && t != MAIN ==> s.threads[t].phase.Finished?
    ensures forall t :: t in s.threads ==> t in s.fileOrder && t in s.callOrder
    ensures Distinct(s.list) && forall t :: t in s.list <==> t in s.threads && t != MAIN
  {
    hide PrivateTables, MergedTables, TracesRight, Distinct;
    assert |Unfinished(s.threads)| == 0;
    forall t | t in s.threads && t != MAIN ensures s.threads[t].phase.Finished? {
      assert t !in Unfinished(s.threads);
    }
    assert forall c :: !BeingAdded(s.threads, c);
  }

  /** From then on the main thread is the only one that moves: nobody can be spawned. */
  lemma NobodyElseMoves(s: State, a: Action)
    requires Inv(s) && s.active == 0 && HasMergedCalls(s.threads[MAIN].phase) && Enabled(s, a)
    ensures a.t == MAIN && (a.Remove? || a.Leave? || a.Poll? || a.Join?)
    ensures Next(s, a).active == 0
  {
    hide Inv;
    AllDone(s);
  }

  lemma StepKeepsInv(s: State, a: Action)
    requires Inv(s) && Enabled(s, a)
    ensures Inv(Next(s, a))
  {
    hide RolesKept, ActiveRight, AddingRight, ListRight, PrivateTables, MergedTables, OrdersRight, TracesRight;
    InvParts(s);
    StepControl(s, a);
    StepTables(s, a);
    StepJoinsLate(s, a);
    InvWhole(Next(s, a));
  }

  lemma InvParts(s: State)
    requires Inv(s)
    ensures Control(s) && Tables(s) && AddingRight(s)
  {}

  lemma InvWhole(s: State)
    requires Control(s) && Tables(s) && JoinsLate(s)
    ensures Inv(s)
  {}

  lemma StepJoinsLate(s: State, a: Action)
    requires Inv(s) && Enabled(s, a)
    ensures JoinsLate(Next(s, a))
  {
    hide Inv, Files.Combined, Calls.Combined, Files.Charged, Calls.Counted;
    assert RolesKept(s.threads) && JoinsLate(s) by { InvRoles(s); }
    if s.threads[MAIN].phase.Joining? || s.threads[MAIN].phase.Reported? {
      NobodyElseMoves(s, a);
    }
  }

  lemma InvRoles(s: State)
    requires Inv(s)
    ensures RolesKept(s.threads) && JoinsLate(s)
  {}

  lemma {:induction false} RunKeepsInv(s: State, run: seq<Action>)
    requires Inv(s) && Runs(s, run)
    ensures Inv(Run(s, run))
    decreases |run|
  {
    hide Inv, Next, Enabled;
    if run != [] {
      StepKeepsInv(s, run[0]);
      RunKeepsInv(Next(s, run[0]), run[1..]);
    }
  }

  // ---- what a run did ----

  /** All that was charged to files in a run, by whichever thread. */
  function ChargesOf(run: seq<Action>): seq<Files.Charge> {
    if run == [] then []
    else (if run[0].Charge? then [run[0].charge] else []) + ChargesOf(run[1..])
  }

  function CallsOf(run: seq<Action>): seq<Calls.Call> {
    if run == [] then []
    else (if run[0].Count? then [run[0].call] else []) + CallsOf(run[1..])
  }

  /** The threads spawned in a run. */
  function Spawned(run: seq<Action>): seq<nat> {
    if run == [] then []
    else (if run[0].Announce? then [run[0].child] else []) + Spawned(run[1..])
  }

  /** How many threads other than the main one have left in a run. */
  function Exits(run: seq<Action>): nat {
    if run == [] then 0
    else (if run[0].Leave? && run[0].t != MAIN then 1 else 0) + Exits(run[1..])
  }

  lemma StepRecords(s: State, a: Action)
    requires Enabled(s, a)
    ensures Events(Next(s, a).fileTrace) == Events(s.fileTrace) + (if a.Charge? then [a.charge] else [])
    ensures Events(Next(s, a).callTrace) == Events(s.callTrace) + (if a.Count? then [a.call] else [])
  {
    hide Files.Charged, Calls.Counted, Files.Combined, Calls.Combined, Events;
    if a.Charge? {
      EventsAppend(s.fileTrace, a.t, a.charge);
    }
    if a.Count? {
      EventsAppend(s.callTrace, a.t, a.call);
    }
  }

  lemma StepSpawns(s: State, a: Action)
    requires Enabled(s, a)
    ensures var s' := Next(s, a);
            && (forall t :: t in s'.threads <==> t in s.threads || (a.Announce? && t == a.child))
            && s'.active == s.active + (if a.Announce? then 1 else 0) - (if a.Leave? && a.t != MAIN then 1 else 0)
  {
    hide Files.Charged, Calls.Counted, Files.Combined, Calls.Combined;
  }

  /** The state after a run accounts for all that was charged and counted in it. */
  lemma {:induction false} RunRecords(s: State, run: seq<Action>)
    requires Runs(s, run)
    ensures Events(Run(s, run).fileTrace) == Events(s.fileTrace) + ChargesOf(run)
    ensures Events(Run(s, run).callTrace) == Events(s.callTrace) + CallsOf(run)
    decreases |run|
  {
    hide Next, Enabled, Events;
    if run != [] {
      StepRecords(s, run[0]);
      RunRecords(Next(s, run[0]), run[1..]);
    }
  }

  /** The state after a run has the threads spawned in it, of which those count that have not left. */
  lemma {:induction false} RunSpawns(s: State, run: seq<Action>)
    requires Runs(s, run)
    ensures var s' := Run(s, run);
            && (forall t :: t in s'.threads <==> t in s.threads || t in Spawned(run))
            && s'.active == s.active + |Spawned(run)| - Exits(run)
    decreases |run|
  {
    hide Next, Enabled;
    if run != [] {
      StepSpawns(s, run[0]);
      RunSpawns(Next(s, run[0]), run[1..]);
    }
  }

  /** No thread is spawned twice, or was there before. */
  lemma {:induction false} SpawnedOnce(s: State, run: seq<Action>)
    requires Runs(s, run)
    ensures Distinct(Spawned(run)) && (forall t :: t in Spawned(run) ==> t !in s.threads)
    decreases |run|
  {
    hide Next;
    if run != [] {
      StepSpawns(s, run[0]);
      SpawnedOnce(Next(s, run[0]), run[1..]);
    }
  }

  lemma CountIsRight(s: State)
    requires Inv(s)
    ensures s.active == |Unfinished(s.threads)| && MAIN in s.threads
  {}

  lemma OnlyJoinsAreLeft(s: State)
    requires Inv(s) && MAIN in s.threads && (s.threads[MAIN].phase.Joining? || s.threads[MAIN].phase.Reported?)
    ensures s.active == 0
    ensures forall a :: Enabled(s, a) ==> a == Join(MAIN)
  {
    hide Inv;
    InvRoles(s);
    forall a | Enabled(s, a) ensures a == Join(MAIN) {
      NobodyElseMoves(s, a);
    }
  }

  /** In every run active is the number of threads spawned so far less those that have left;
      when the main thread has read zero, all of them are done for good, and those in the list
      are the ones that were spawned, each once. */
  lemma TerminationIsDetected(run: seq<Action>)
    requires Runs(INIT, run)
    ensures var s := Run(INIT, run);
            && s.active == |Spawned(run)| - Exits(run) == |Unfinished(s.threads)|
            && (forall t :: t in s.threads <==> t == MAIN || t in Spawned(run))
            && (s.threads[MAIN].phase.Joining? || s.threads[MAIN].phase.Reported? ==>
                 && (forall t :: t in Spawned(run) ==> s.threads[t].phase.Finished?)
                 && Distinct(s.list) && (forall t :: t in s.list <==> t in Spawned(run))
                 && (forall a :: Enabled(s, a) ==> a == Join(MAIN)))
  {
    hide Inv, Spawned, Exits, Enabled, Next, Distinct, Run, Runs;
    InitInv();
    RunKeepsInv(INIT, run);
    RunSpawns(INIT, run);
    SpawnedOnce(INIT, run);
    var s := Run(INIT, run);
    CountIsRight(s);
    if s.threads[MAIN].phase.Joining? || s.threads[MAIN].phase.Reported? {
      OnlyJoinsAreLeft(s);
      AllDone(s);
    }
  }

  /** The report does not depend on the schedule: once the main thread has read zero, the
      merged tables are those that any one collector would have built from all that was charged
      and counted in the run, each once and in any order; up to which of several sizes with the
      same low 32 bits stands for a histogram slot, and without that exception if no two such
      sizes occur. */
  lemma ReportIsScheduleIndependent(run: seq<Action>, charges: seq<Files.Charge>, calls: seq<Calls.Call>)
    requires Runs(INIT, run)
    requires MAIN in Run(INIT, run).threads
    requires var phase := Run(INIT, run).threads[MAIN].phase; phase.Joining? || phase.Reported?
    requires multiset(charges) == multiset(ChargesOf(run))
    requires multiset(calls) == multiset(CallsOf(run))
    ensures var s := Run(INIT, run);
            && Files.WellFormed(s.files) && Files.WellFormed(Files.TableOf(charges))
            && FileLaws.Canon(s.files) == FileLaws.Canon(Files.TableOf(charges))
            && (FileOrder.NoAliases(charges) ==> s.files == Files.TableOf(charges))
            && s.calls == Calls.TableOf(calls)
  {
    hide Inv, Files.TableOf, Calls.TableOf, Files.WellFormed, FileLaws.Canon, FileOrder.NoAliases, Runs, Run;
    hide ChargesOf, CallsOf;
    InitInv();
    RunKeepsInv(INIT, run);
    RunRecords(INIT, run);
    var s := Run(INIT, run);
    InvRoles(s);
    AllDone(s);
    MergedFromAll(s);
    assert [] + ChargesOf(run) == ChargesOf(run) && [] + CallsOf(run) == CallsOf(run);
    var grouped := Grouped(s.fileTrace, s.fileOrder);
    FileLaws.OrderIndependent(charges, grouped);
    if FileOrder.NoAliases(charges) {
      FileOrder.UnaliasedOrders(charges, grouped);
    }
    Calls.OrderIndependent(calls, Grouped(s.callTrace, s.callOrder));
  }

  lemma MergedFromAll(s: State)
    requires Inv(s) && forall t :: t in s.threads ==> t in s.fileOrder && t in s.callOrder
    ensures s.files == Files.TableOf(Grouped(s.fileTrace, s.fileOrder))
    ensures s.calls == Calls.TableOf(Grouped(s.callTrace, s.callOrder))
    ensures multiset(Grouped(s.fileTrace, s.fileOrder)) == multiset(Events(s.fileTrace))
    ensures multiset(Grouped(s.callTrace, s.callOrder)) == multiset(Events(s.callTrace))
  {
    hide PrivateTables, ListRight, AddingRight, ActiveRight, RolesKept, Files.TableOf, Calls.TableOf;
    GroupingRearranges(s.fileTrace, s.fileOrder);
    GroupingRearranges(s.callTrace, s.callOrder);
  }
}
