/** What an exec achieves although other threads clone, exec and exit between its steps. */
module SharingExec {
  import opened FdTables
  import opened Sharing
  import opened SharingSafety

  /** The contents the table had when the exec took it over, from then until the exec ends. */
  predicate MidExec(s: State, t: nat, snap: Table) {
    && t in s.threads
    && match s.threads[t].phase
       case ExecCopied(_, sn) => sn == snap
       case ExecLast(_, sn) => sn == snap
       case ExecLeft(_, sn) => sn == snap
       case ExecReady(_, sn) => sn == snap
       case ExecStripping(sn) => sn == snap
       case _ => false
  }

  predicate IsExec(a: Action) {
    a.ExecTest? || a.ExecCopy? || a.ExecDec? || a.ExecFreeOld? || a.ExecAlloc? || a.ExecInstall? || a.ExecStrip?
  }

  /** A sole holder takes over the table as it is; a sharer as it is when it copies it. */
  lemma TakesOver(s: State, t: nat)
    requires t in s.threads && Trio(s.heap, s.threads[t])
    ensures var th := s.threads[t];
            && (th.phase.Running? && s.heap[th.count].count <= 1 ==>
                 MidExec(Next(s, ExecTest(t)), t, s.heap[th.table].table))
            && (th.phase.ExecCopying? ==>
                 MidExec(Next(s, ExecCopy(t)), t, s.heap[th.table].table))
  {}

  /** Whatever other threads do, and through its own steps, an exec keeps what it took over. */
  lemma {:induction false} StaysMidExec(s: State, run: seq<Action>, t: nat, snap: Table)
    requires Inv(s) && MidExec(s, t, snap)
    requires Runs(s, run) && Guarded(s, run)
    requires ExecStrip(t) !in run
    ensures MidExec(Run(s, run), t, snap)
    decreases |run|
  {
    hide Inv, Guard, MidExec, Effect, Safe, Enabled;
    if run != [] {
      assert run[0] != ExecStrip(t) && ExecStrip(t) !in run[1..];
      StepKeepsInv(s, run[0]);
      StepStaysMidExec(s, run[0], t, snap);
      StaysMidExec(Next(s, run[0]), run[1..], t, snap);
    }
  }

  lemma StepStaysMidExec(s: State, a: Action, t: nat, snap: Table)
    requires Enabled(s, a) && Safe(s, a) && MidExec(s, t, snap) && a != ExecStrip(t)
    ensures MidExec(Next(s, a), t, snap)
  {
    hide TableAt, CountAt, MutexAt, Contents, Bumped, Edited, Defined, Stripped;
  }

  /** t runs on a table with the given entries, with a count of one, and shares nothing. */
  ghost predicate SoleHolderOf(s: State, t: nat, table: Table) {
    && t in s.threads
    && var th := s.threads[t];
       && th.phase.Running?
       && TableAt(s.heap, th.table) && s.heap[th.table].table == table
       && CountAt(s.heap, th.count) && s.heap[th.count].count == 1
       && Exclusive(s, t)
  }

  /** When the exec ends its caller holds, with a count of one and shared with nobody,
      a table with exactly those entries it took over that are not close-on-exec. */
  lemma ExecUnshares(s: State, run: seq<Action>, t: nat, snap: Table)
    requires Inv(s) && MidExec(s, t, snap)
    requires Runs(s, run) && Guarded(s, run) && ExecStrip(t) !in run
    requires Enabled(Run(s, run), ExecStrip(t))
    ensures var s' := Next(Run(s, run), ExecStrip(t));
            Inv(s') && SoleHolderOf(s', t, Stripped(snap))
  {
    hide Inv, Guard, Runs, Run;
    var m := Run(s, run);
    RunKeepsInv(s, run);
    StaysMidExec(s, run, t, snap);
    StepExecStrip(m, ExecStrip(t));
    ExecEnds(m, t, snap);
  }

  lemma ExecEnds(m: State, t: nat, snap: Table)
    requires Inv(m) && MidExec(m, t, snap) && m.threads[t].phase.ExecStripping?
    ensures Safe(m, ExecStrip(t))
    ensures var s' := Next(m, ExecStrip(t));
            SoleHolderOf(s', t, Stripped(snap))
  {
    hide Inv, Accounted, Owns, Shares, Stripped, Holders;
    Relies(m, t);
    OthersDoNotUse(m, t);
    Uses(m.threads[t]);
    Uses(m.threads[t].(phase := Running));
    SoleOwner(m, t);
  }

  lemma SoleOwner(m: State, t: nat)
    requires Inv(m) && t in m.threads && m.threads[t].phase.ExecStripping?
    ensures CountAt(m.heap, m.threads[t].count) && m.heap[m.threads[t].count].count == 1
  {
    hide Accounted, NoOrphans, PendingHeld;
    var th := m.threads[t];
    assert Wired(m.heap, th) && Owns(th, th.count);
    forall u | u in m.threads && u != t && Counted(m.threads[u].phase) ensures m.threads[u].count != th.count {
      var other := m.threads[u];
      assert Apart(th, other);
      assert Owns(other, other.count) || Shares(other, other.count);
    }
    assert Holders(m.threads, th.count) == {t};
  }

  /** No step of an exec changes a table that another thread uses. */
  lemma OthersKeepTheirTables(s: State, a: Action, u: nat, id: Id)
    requires Inv(s) && Enabled(s, a) && Guard(s, a) && IsExec(a)
    requires u in s.threads && u != a.t && (Owns(s.threads[u], id) || Shares(s.threads[u], id))
    requires TableAt(s.heap, id)
    ensures TableAt(Next(s, a).heap, id) && Next(s, a).heap[id] == s.heap[id]
  {
    hide Inv, Wired, Guard, Safe, Effect;
    StepKeepsInv(s, a);
    Relies(s, a.t);
    LiveBelowNext(s, id);
    assert Apart(s.threads[a.t], s.threads[u]);
    ExecHeapFrame(s, a, id);
  }

  /** An exec changes no table but its own. */
  lemma ExecHeapFrame(s: State, a: Action, id: Id)
    requires Enabled(s, a) && Safe(s, a) && IsExec(a) && TableAt(s.heap, id) && id < s.next
    requires !Owns(s.threads[a.t], id)
    ensures TableAt(Next(s, a).heap, id) && Next(s, a).heap[id] == s.heap[id]
  {
    hide Stripped;
  }

  lemma LiveBelowNext(s: State, id: Id)
    requires Inv(s) && id in s.heap
    ensures id < s.next
  {}

  /** What a sharer opens after the program was replaced, but before the table is copied, is
      copied too, and outlasts the exec exactly if it is not close-on-exec: an exec and its
      handler are not one step. */
  lemma LateOpenIsTakenOver(s: State, t: nat, u: nat, fd: int, name: CString, cloexec: bool)
    requires Inv(s) && t in s.threads && u in s.threads
    requires s.threads[t].phase.ExecCopying? && s.threads[u].phase.Running?
    requires s.threads[t].table == s.threads[u].table
    ensures var e := Action.Edit(u, Put(fd, name, cloexec));
            var snap := Contents(s.heap, s.threads[t].table)[fd := Entry(name, cloexec)];
            && Enabled(s, e) && Inv(Next(s, e))
            && Enabled(Next(s, e), ExecCopy(t))
            && MidExec(Next(Next(s, e), ExecCopy(t)), t, snap)
            && (fd in Stripped(snap) <==> !cloexec)
  {
    hide Inv, Wired, Stripped;
    var e := Action.Edit(u, Put(fd, name, cloexec));
    StepKeepsInv(s, e);
    var m := Next(s, e);
    Relies(s, u);
    Relies(m, t);
    TakesOver(m, t);
    KeptByStrip(m.heap[m.threads[t].table].table, fd);
  }

  lemma KeptByStrip(t: Table, fd: int)
    ensures fd in Stripped(t) <==> fd in t && !t[fd].cloexec
  {}
}
