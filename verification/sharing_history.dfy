/** Every descriptor table, however many threads edit it and whatever it was copied from, is
    an index over its lineage: the edits that all its sharers made, after those that its
    original had seen when it was copied. No guard is needed for this. */
module SharingHistory {
  import opened FdHistory
  import opened FdTables
  import opened HandlerLaws
  import opened Options
  import opened Sharing
  import opened Syscalls
  import opened Words

  type Lineages = map<nat, seq<Edit>>

  function LineageOf(ls: Lineages, id: Id): seq<Edit> {
    if id in ls then ls[id] else []
  }

  /** What a step adds to the lineages. */
  function Recorded(ls: Lineages, s: State, a: Action): Lineages
    requires Enabled(s, a)
  {
    var table := s.threads[a.t].table;
    if !Safe(s, a) then ls
    else match a
      case Clone(_, _, shareFiles) => if shareFiles then ls else ls[s.next := LineageOf(ls, table)]
      case Edit(_, e) => ls[table := LineageOf(ls, table) + [e]]
      case ExecCopy(_) => ls[s.next := LineageOf(ls, table)]
      case ExecStrip(_) => ls[table := LineageOf(ls, table) + [Strip]]
      case _ => ls
  }

  function LineagesAfter(ls: Lineages, s: State, run: seq<Action>): Lineages
    requires Runs(s, run)
    decreases |run|
  {
    if run == [] then ls else LineagesAfter(Recorded(ls, s, run[0]), Next(s, run[0]), run[1..])
  }

  ghost predicate Traced(ls: Lineages, s: State) {
    && (forall id :: id in s.heap ==> id < s.next)
    && (forall id :: TableAt(s.heap, id) ==> After(INITIAL, LineageOf(ls, id)) == Some(Contents(s.heap, id)))
  }

  lemma AfterAppend(t: Table, es: seq<Edit>, e: Edit)
    ensures After(t, es + [e]) == match After(t, es)
                                  case None => None
                                  case Some(u) => if Defined(u, e) then Some(Edited(u, e)) else None
  {
    hide Edited, Defined;
    assert (es + [e])[..|es + [e]| - 1] == es;
  }

  lemma StripIsEdit(t: Table)
    ensures Defined(t, Strip) && Edited(t, Strip) == Stripped(t)
  {}

  lemma NextStaysAhead(s: State, a: Action)
    requires (forall id :: id in s.heap ==> id < s.next) && Enabled(s, a)
    ensures forall id :: id in Next(s, a).heap ==> id < Next(s, a).next
  {
    hide Edited, Defined, Stripped;
  }

  lemma StepKeepsTraced(ls: Lineages, s: State, a: Action)
    requires Traced(ls, s) && Enabled(s, a)
    ensures Traced(Recorded(ls, s, a), Next(s, a))
  {
    hide After, Defined, Edited, Stripped;
    NextStaysAhead(s, a);
    var ls', s' := Recorded(ls, s, a), Next(s, a);
    forall id | TableAt(s'.heap, id) ensures After(INITIAL, LineageOf(ls', id)) == Some(Contents(s'.heap, id)) {
      CellKeepsTraced(ls, s, a, id);
    }
  }

  lemma CellKeepsTraced(ls: Lineages, s: State, a: Action, id: Id)
    requires Traced(ls, s) && Enabled(s, a) && TableAt(Next(s, a).heap, id)
    ensures After(INITIAL, LineageOf(Recorded(ls, s, a), id)) == Some(Contents(Next(s, a).heap, id))
  {
    hide After, Defined, Edited, Stripped;
    var table := s.threads[a.t].table;
    assert TableAt(s.heap, id) || id == s.next;
    if a.Edit? {
      AfterAppend(INITIAL, LineageOf(ls, table), a.edit);
    } else if a.ExecStrip? {
      AfterAppend(INITIAL, LineageOf(ls, table), Strip);
      StripIsEdit(Contents(s.heap, table));
    }
  }

  lemma {:induction false} RunKeepsTraced(ls: Lineages, s: State, run: seq<Action>)
    requires Traced(ls, s) && Runs(s, run)
    ensures Traced(LineagesAfter(ls, s, run), Run(s, run))
    decreases |run|
  {
    hide Traced, Next, Enabled, Recorded;
    if run != [] {
      StepKeepsTraced(ls, s, run[0]);
      RunKeepsTraced(Recorded(ls, s, run[0]), Next(s, run[0]), run[1..]);
    }
  }

  /** After any run, in any interleaving, what a table holds for a descriptor is what a walk
      back through its lineage finds. */
  lemma TablesFollowLineages(run: seq<Action>, id: Id, fd: int)
    requires Runs(INIT, run) && TableAt(Run(INIT, run).heap, id)
    ensures var lineage := LineageOf(LineagesAfter(map[0 := []], INIT, run), id);
            && After(INITIAL, lineage) == Some(Contents(Run(INIT, run).heap, id))
            && Entered(Contents(Run(INIT, run).heap, id), fd) == Resolve(INITIAL, lineage, fd)
  {
    hide Runs, Run, LineagesAfter, Resolve, Contents;
    StartTraced();
    RunKeepsTraced(map[0 := []], INIT, run);
    TableIndexesHistory(INITIAL, LineageOf(LineagesAfter(map[0 := []], INIT, run), id), fd);
  }

  /** In any interleaving, a close, read or write of a thread is charged under the name that a
      walk back through the lineage of its table finds, and under "NULL" if it finds none. */
  lemma ChargedByLineage(run: seq<Action>, t: nat, c: Completed)
    requires Runs(INIT, run)
    requires var s := Run(INIT, run); t in s.threads && TableAt(s.heap, s.threads[t].table)
    requires var k := Classify(c.sc); k.CloseKind? || k.ReadKind? || k.WriteKind?
    ensures NameReadable(c)
    ensures var s := Run(INIT, run);
            var lineage := LineageOf(LineagesAfter(map[0 := []], INIT, run), s.threads[t].table);
            var found := Resolve(INITIAL, lineage, Low32(c.regs.rdi));
            var charges := ChargesOf(c, Contents(s.heap, s.threads[t].table));
            && |charges| == 1
            && charges[0].name == (if found.Some? then found.value.filename else "NULL")
  {
    hide Runs, Run, LineagesAfter, Resolve, Contents, ChargesOf, Low32, Classify;
    var s := Run(INIT, run);
    var table := s.threads[t].table;
    TablesFollowLineages(run, table, 0);
    ChargedByHistory(INITIAL, LineageOf(LineagesAfter(map[0 := []], INIT, run), table), Contents(s.heap, table), c);
  }

  lemma StartTraced()
    ensures Traced(map[0 := []], INIT)
  {}

  // ---- how long names get ----

  ghost predicate AllNamesFit(h: Heap) {
    forall id :: TableAt(h, id) ==> NamesFit(Contents(h, id))
  }

  predicate EntersShortName(a: Action) {
    a.Edit? && a.edit.Put? ==> |a.edit.name| < FILENAME_BUFF_SIZE
  }

  lemma StepKeepsNamesShort(s: State, a: Action)
    requires AllNamesFit(s.heap) && Enabled(s, a) && EntersShortName(a)
    ensures AllNamesFit(Next(s, a).heap)
  {
    hide Edited, Stripped, NamesFit, Defined;
    var table := s.threads[a.t].table;
    if a.Edit? && TableAt(s.heap, table) {
      NamesStayShort(Contents(s.heap, table), a.edit);
    } else if a.ExecStrip? && TableAt(s.heap, table) {
      StripIsEdit(Contents(s.heap, table));
      NamesStayShort(Contents(s.heap, table), Strip);
    }
    var h' := Next(s, a).heap;
    forall id | TableAt(h', id) ensures NamesFit(Contents(h', id)) {
      assert TableAt(s.heap, id) || id == s.next;
    }
  }

  lemma {:induction false} RunKeepsNamesShort(s: State, run: seq<Action>)
    requires AllNamesFit(s.heap) && Runs(s, run)
    requires forall a :: a in run ==> EntersShortName(a)
    ensures AllNamesFit(Run(s, run).heap)
    decreases |run|
  {
    hide AllNamesFit, Next, Enabled, EntersShortName;
    if run != [] {
      assert run[0] in run && forall a :: a in run[1..] ==> a in run;
      StepKeepsNamesShort(s, run[0]);
      RunKeepsNamesShort(Next(s, run[0]), run[1..]);
    }
  }

  /** If every file is entered under a name that fits the buffer, so does every name in every
      table: shared, inherited or copied, through any chain of duplicates and slaves. */
  lemma NamesFitInAllTables(run: seq<Action>, id: Id)
    requires Runs(INIT, run) && TableAt(Run(INIT, run).heap, id)
    requires forall a :: a in run ==> EntersShortName(a)
    ensures NamesFit(Contents(Run(INIT, run).heap, id))
  {
    hide Runs, Run, NamesFit, EntersShortName, Contents;
    StartNamesFit();
    RunKeepsNamesShort(INIT, run);
  }

  lemma StartNamesFit()
    ensures AllNamesFit(INIT.heap)
  {}
}
