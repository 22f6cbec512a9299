/** The table of all threads' temporaries. Between its operations every share count is the
    number of threads whose temporaries point to it. */
module ThreadTemporaries {
  import opened FdTables
  import opened Handlers
  import opened Maps
  import opened Syscalls
  import opened Words

  // ---- who points to what ----

  datatype Refs = Refs(tmps: ThreadTmps, table: FdTable, count: ShareCount)

  /** Temporaries belong to one thread each; threads share a count exactly if they share
      a descriptor table. */
  ghost predicate Wired(refs: map<int, Refs>) {
    && (forall t, u :: t in refs && u in refs && t != u ==> refs[t].tmps != refs[u].tmps)
    && (forall t, u :: t in refs && u in refs ==> (refs[t].table == refs[u].table <==> refs[t].count == refs[u].count))
  }

  ghost function Sharers(refs: map<int, Refs>, count: ShareCount): set<int> {
    set t | t in refs && refs[t].count == count
  }

  ghost function OtherSharers(refs: map<int, Refs>, t: int, count: ShareCount): set<int> {
    set u | u in refs && u != t && refs[u].count == count
  }

  lemma SharersSplit(refs: map<int, Refs>, t: int, count: ShareCount)
    ensures |Sharers(refs, count)|
         == |OtherSharers(refs, t, count)| + if t in refs && refs[t].count == count then 1 else 0
  {
    SameSet(Sharers(refs, count),
            OtherSharers(refs, t, count) + if t in refs && refs[t].count == count then {t} else {});
  }

  lemma SharersReplaced(refs: map<int, Refs>, t: int, r: Refs, count: ShareCount)
    ensures |Sharers(refs[t := r], count)| == |Sharers(refs, count)|
      - (if t in refs && refs[t].count == count then 1 else 0) + (if r.count == count then 1 else 0)
  {
    hide Sharers;
    SharersSplit(refs, t, count);
    SharersSplit(refs[t := r], t, count);
    SameSet(OtherSharers(refs[t := r], t, count), OtherSharers(refs, t, count));
  }

  lemma SharersRemoved(refs: map<int, Refs>, t: int, count: ShareCount)
    requires t in refs
    ensures |Sharers(refs - {t}, count)| == |Sharers(refs, count)| - if refs[t].count == count then 1 else 0
  {
    hide Sharers;
    SharersSplit(refs, t, count);
    SharersSplit(refs - {t}, t, count);
    SameSet(OtherSharers(refs - {t}, t, count), OtherSharers(refs, t, count));
  }

  lemma NobodyShares(refs: map<int, Refs>, count: ShareCount)
    ensures |Sharers(refs, count)| == 0 <==> forall t :: t in refs ==> refs[t].count != count
  {
    if |Sharers(refs, count)| == 0 {
      forall t | t in refs ensures refs[t].count != count {
        assert t !in Sharers(refs, count);
      }
    } else if forall t :: t in refs ==> refs[t].count != count {
      SameSet(Sharers(refs, count), {});
    }
  }

  // ---- the code ----

  class ThreadTmpsTable {
    var tmps: map<int, ThreadTmps>

    ghost function Pointers(): map<int, Refs>
      reads this, tmps.Values
    {
      map t | t in tmps :: Refs(tmps[t], tmps[t].fdTable, tmps[t].shareCount)
    }

    ghost function CountSet(): set<ShareCount>
      reads this, tmps.Values
    {
      set t | t in tmps :: tmps[t].shareCount
    }

    ghost function TableSet(): set<FdTable>
      reads this, tmps.Values
    {
      set t | t in tmps :: tmps[t].fdTable
    }

    ghost predicate Valid()
      reads this, tmps.Values, CountSet(), TableSet()
    {
      && Wired(Pointers())
      && (forall t :: t in tmps ==> tmps[t].Valid())
      && (forall t :: t in tmps ==> tmps[t].shareCount.n == |Sharers(Pointers(), tmps[t].shareCount)|)
    }

    constructor ()
      ensures Valid() && tmps == map[]
    {
      tmps := map[];
    }

    /** What a new thread is given: its parent's table and count, or a copy and no count.
        Either way it is what Insert asks for. */
    method StartData(parent: int, cloneFlags: int) returns (fdTable: FdTable, shared: ShareCount?)
      requires Valid() && parent in tmps
      ensures fdTable.Valid()
      ensures if HasBit(cloneFlags, CLONE_FILES) then
                fdTable == tmps[parent].fdTable && shared == tmps[parent].shareCount
              else
                && fresh(fdTable) && fresh(fdTable.Owned()) && shared == null
                && fdTable.View() == tmps[parent].fdTable.View()
      ensures forall t :: t in tmps ==> (tmps[t].fdTable == fdTable <==> tmps[t].shareCount == shared)
    {
      WiredApart(Pointers(), parent);
      assert forall t :: t in tmps ==> Pointers()[t] == Refs(tmps[t], tmps[t].fdTable, tmps[t].shareCount);
      var parents := tmps[parent];
      if HasBit(cloneFlags, CLONE_FILES) {
        fdTable, shared := parents.fdTable, parents.shareCount;
      } else {
        fdTable := parents.fdTable.DeepCopy();
        shared := null;
      }
    }

    /** A null count means that the descriptor table is not shared at the moment. */
    method Insert(thread: int, fdTable: FdTable, shared: ShareCount?) returns (inserted: ThreadTmps)
      requires Valid() && thread !in tmps && fdTable.Valid()
      requires forall t :: t in tmps ==> (tmps[t].fdTable == fdTable <==> tmps[t].shareCount == shared)
      requires shared != null ==> shared in CountSet()
      modifies this, if shared == null then {} else {shared}
      ensures Valid()
      ensures fresh(inserted) && tmps == old(tmps)[thread := inserted] && inserted.fdTable == fdTable
      ensures if shared == null then fresh(inserted.shareCount) && inserted.shareCount.n == 1
              else inserted.shareCount == shared && shared.n == old(shared.n) + 1
    {
      hide Wired, Sharers, FdTable.View, FdTable.Valid;
      ghost var before := Pointers();
      var count: ShareCount;
      if shared != null {
        count := shared;
      } else {
        count := new ShareCount(0);
        NobodyShares(before, count);
      }
      inserted := new ThreadTmps(fdTable, count);
      ghost var r := Refs(inserted, fdTable, count);
      count.n := count.n + 1;
      tmps := tmps[thread := inserted];
      assert Pointers() == before[thread := r];
      WiredReplaced(before, thread, r);
      forall t | t in tmps ensures tmps[t].shareCount.n == |Sharers(Pointers(), tmps[t].shareCount)| {
        SharersReplaced(before, thread, r, tmps[t].shareCount);
      }
    }

    /** Counts the thread out; the last one frees the descriptor table, the count and the mutex. */
    method FreeSingle(released: ThreadTmps) returns (freed: bool)
      modifies released.shareCount
      ensures released.shareCount.n == old(released.shareCount.n) - 1
      ensures freed <==> released.shareCount.n == 0
    {
      released.shareCount.n := released.shareCount.n - 1;
      freed := released.shareCount.n == 0;
    }

    /** Frees exactly if nobody is left who shares. */
    method Remove(thread: int) returns (found: bool, freed: bool)
      requires Valid()
      modifies this, CountSet()
      ensures Valid()
      ensures found <==> thread in old(tmps)
      ensures tmps == old(tmps) - {thread}
      ensures freed <==> found && forall t :: t in tmps ==> tmps[t].shareCount != old(tmps[thread].shareCount)
    {
      hide Wired, Sharers, FdTable.View, FdTable.Valid;
      ghost var before := Pointers();
      found, freed := thread in tmps, false;
      if found {
        ghost var count := tmps[thread].shareCount;
        freed := FreeSingle(tmps[thread]);
        tmps := tmps - {thread};
        assert Pointers() == before - {thread};
        WiredRemoved(before, thread);
        SharersRemoved(before, thread, count);
        NobodyShares(Pointers(), count);
        assert forall t :: t in tmps ==> Pointers()[t].count == tmps[t].shareCount;
        forall t | t in tmps ensures tmps[t].shareCount.n == |Sharers(Pointers(), tmps[t].shareCount)| {
          SharersRemoved(before, thread, tmps[t].shareCount);
        }
      } else {
        assert tmps - {thread} == tmps;
      }
    }

    method Lookup(thread: int) returns (found: ThreadTmps?)
      ensures found != null <==> thread in tmps
      ensures found != null ==> found == tmps[thread]
    {
      found := null;
      if thread in tmps {
        found := tmps[thread];
      }
    }

    /** The exec of one thread as the others' pointers and tables see it. */
    method UnshareAndStrip(thread: int)
      requires Valid() && thread in tmps
      modifies tmps[thread], tmps[thread].fdTable, tmps[thread].shareCount
      ensures var mine := tmps[thread];
              && mine.Valid()
              && Pointers() == old(Pointers())[thread := Refs(mine, mine.fdTable, mine.shareCount)]
              && mine.fdTable.View() == Stripped(old(mine.fdTable.View()))
              && (if old(mine.shareCount.n) > 1 then
                    && fresh(mine.fdTable) && fresh(mine.shareCount) && mine.shareCount.n == 1
                    && old(mine.shareCount).n == old(mine.shareCount.n) - 1
                  else
                    && mine.fdTable == old(mine.fdTable) && mine.shareCount == old(mine.shareCount)
                    && mine.shareCount.n == old(mine.shareCount.n))
      ensures forall t :: t in tmps && t != thread ==>
        tmps[t].Valid() && tmps[t].fdTable.View() == old(tmps[t].fdTable.View())
    {
      hide Wired, Sharers, FdTable.View, FdTable.Valid, Stripped, ThreadTmps.KeepsToItself;
      var mine := tmps[thread];
      ghost var before := Pointers();
      SharersOf(before, thread);
      WiredApart(before, thread);
      assert forall t :: t in tmps ==> before[t] == Refs(tmps[t], tmps[t].fdTable, tmps[t].shareCount);
      mine.HandleExecveReturn();
      SameMap(Pointers(), before[thread := Refs(mine, mine.fdTable, mine.shareCount)]);
    }

    /** After an exec its thread shares with nobody, and nobody else notices. */
    method HandleExecveReturn(thread: int)
      requires Valid() && thread in tmps
      modifies tmps[thread], tmps[thread].fdTable, tmps[thread].shareCount
      ensures Valid()
      ensures tmps[thread].fdTable.View() == Stripped(old(tmps[thread].fdTable.View()))
      ensures tmps[thread].shareCount.n == 1
      ensures forall t :: t in tmps && t != thread ==>
        && tmps[t].fdTable == old(tmps[t].fdTable) != tmps[thread].fdTable
        && tmps[t].fdTable.View() == old(tmps[t].fdTable.View())
    {
      hide Wired, Sharers, FdTable.View, FdTable.Valid, Stripped, ThreadTmps.Valid;
      ghost var before := Pointers();
      SharersOf(before, thread);
      UnshareAndStrip(thread);
      ghost var r := Pointers()[thread];
      Unshared(before, thread, r);
      forall t | t in tmps ensures tmps[t].shareCount.n == |Sharers(Pointers(), tmps[t].shareCount)| {
        SharersReplaced(before, thread, r, tmps[t].shareCount);
      }
      assert forall t :: t in tmps && t != thread ==> Pointers()[t] == before[t];
    }
  }

  /** A thread that was alone, or that moved on to a table and count that nobody has, is alone. */
  lemma Unshared(refs: map<int, Refs>, t: int, r: Refs)
    requires Wired(refs) && t in refs && r.tmps == refs[t].tmps
    requires
      || (r == refs[t] && |Sharers(refs, r.count)| == 1)
      || forall u :: u in refs ==> refs[u].table != r.table && refs[u].count != r.count
    ensures Wired(refs[t := r])
    ensures forall u :: u in refs && u != t ==>
      refs[u].tmps != r.tmps && refs[u].table != r.table && refs[u].count != r.count
    ensures |Sharers(refs[t := r], r.count)| == 1
  {
    SharersOf(refs, t);
    SharersReplaced(refs, t, r, r.count);
    NobodyShares(refs, r.count);
  }

  lemma WiredReplaced(refs: map<int, Refs>, t: int, r: Refs)
    requires Wired(refs)
    requires forall u :: u in refs && u != t ==>
      refs[u].tmps != r.tmps && (refs[u].table == r.table <==> refs[u].count == r.count)
    ensures Wired(refs[t := r])
  {}

  lemma WiredRemoved(refs: map<int, Refs>, t: int)
    requires Wired(refs)
    ensures Wired(refs - {t})
  {}

  lemma WiredApart(refs: map<int, Refs>, t: int)
    requires Wired(refs) && t in refs
    ensures forall u :: u in refs && u != t ==>
      refs[u].tmps != refs[t].tmps && (refs[u].table == refs[t].table <==> refs[u].count == refs[t].count)
  {}

  /** A count of one is held by its thread alone. */
  lemma SharersOf(refs: map<int, Refs>, t: int)
    requires t in refs
    ensures |Sharers(refs, refs[t].count)| >= 1
    ensures |Sharers(refs, refs[t].count)| == 1 ==> forall u :: u in refs && u != t ==> refs[u].count != refs[t].count
  {
    var others := Sharers(refs, refs[t].count) - {t};
    SameSet(Sharers(refs, refs[t].count), others + {t});
    forall u | u in refs && u != t && |others| == 0 ensures refs[u].count != refs[t].count {
      assert u !in others;
    }
  }
}
