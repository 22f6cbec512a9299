/** In every guarded run the reference counts are right, nothing is used after it was
    freed or freed twice, and nothing leaks. */
module SharingSafety {
  import opened FdTables
  import opened HashIter
  import opened Sharing

  // ---- the invariant ----

  predicate Trio(h: Heap, th: Thread) {
    TableAt(h, th.table) && CountAt(h, th.count) && MutexAt(h, th.mutex)
  }

  predicate Copied(h: Heap, copy: Id, snap: Table) {
    TableAt(h, copy) && h[copy].table == snap
  }

  /** Whatever the thread will touch is there. */
  predicate Wired(h: Heap, th: Thread) {
    match th.phase
    case PendingShared => Trio(h, th)
    case PendingCopy => TableAt(h, th.table)
    case Running => Trio(h, th)
    case ExecCopying => Trio(h, th)
    case ExecCopied(copy, snap) => Trio(h, th) && Copied(h, copy, snap) && copy != th.table
    case ExecLast(copy, snap) => Trio(h, th) && Copied(h, copy, snap) && copy != th.table
    case ExecLeft(copy, snap) => Copied(h, copy, snap)
    case ExecReady(copy, snap) => Copied(h, copy, snap) && CountAt(h, th.count) && MutexAt(h, th.mutex)
    case ExecStripping(snap) => Trio(h, th) && Copied(h, th.table, snap)
    case FreeingTable => Trio(h, th)
    case FreeingCount => CountAt(h, th.count) && MutexAt(h, th.mutex)
    case FreeingMutex => MutexAt(h, th.mutex)
    case Gone => true
  }

  /** Two sharers have everything in common or nothing. */
  predicate Coherent(th: Thread, u: Thread) {
    Sharer(th.phase) && Sharer(u.phase) ==>
      (th.table == u.table || th.count == u.count || th.mutex == u.mutex) ==>
      (th.table == u.table && th.count == u.count && th.mutex == u.mutex)
  }

  ghost predicate Excludes(th: Thread, u: Thread) {
    forall id :: Owns(th, id) ==> !Owns(u, id) && !Shares(u, id)
  }

  ghost predicate Apart(th: Thread, u: Thread) {
    Coherent(th, u) && Excludes(th, u) && Excludes(u, th)
  }

  ghost predicate AllWired(s: State) {
    forall t :: t in s.threads ==> Wired(s.heap, s.threads[t])
  }

  ghost predicate AllApart(ts: Threads) {
    forall t, u :: t in ts && u in ts && t != u ==> Apart(ts[t], ts[u])
  }

  /** Every reference count is the number of threads that raised it and did not lower it again. */
  ghost predicate CountsRight(s: State) {
    forall c :: CountAt(s.heap, c) ==> s.heap[c].count == |Holders(s.threads, c)|
  }

  ghost predicate PendingHeld(ts: Threads) {
    forall t :: t in ts && ts[t].phase.PendingShared? ==> |Holders(ts, ts[t].count)| > 0
  }

  ghost predicate Reached(ts: Threads, id: Id) {
    exists t :: t in ts && (Owns(ts[t], id) || Shares(ts[t], id))
  }

  ghost predicate NoOrphans(s: State) {
    forall id :: id in s.heap ==> Reached(s.threads, id)
  }

  /** What was allocated is either there and never freed, or was freed once. */
  ghost predicate Accounted(s: State) {
    && (forall id :: id in s.heap ==> id < s.next)
    && (forall id: Id :: s.freed[id] == if id < s.next && id !in s.heap then 1 else 0)
  }

  ghost predicate Inv(s: State) {
    && !s.crashed
    && AllWired(s)
    && AllApart(s.threads)
    && CountsRight(s)
    && PendingHeld(s.threads)
    && NoOrphans(s)
    && Accounted(s)
  }

  lemma InitInv()
    ensures Inv(INIT)
  {
    hide AllWired, AllApart, CountsRight, PendingHeld, NoOrphans, Accounted;
    InitThreads();
    InitCounts();
    InitCells();
  }

  lemma InitThreads()
    ensures AllWired(INIT) && AllApart(INIT.threads) && PendingHeld(INIT.threads)
  {}

  lemma InitCounts()
    ensures CountsRight(INIT)
  {
    assert Holders(INIT.threads, 1) == {0};
  }

  lemma InitCells()
    ensures NoOrphans(INIT) && Accounted(INIT)
  {
    forall id | id in INIT.heap ensures Reached(INIT.threads, id) {
      assert Shares(INIT.threads[0], id);
    }
  }

  // ---- counting holders ----

  lemma HoldersMoved(ts: Threads, t: nat, th: Thread, c: Id)
    ensures var before := t in ts && Counted(ts[t].phase) && ts[t].count == c;
            var after := Counted(th.phase) && th.count == c;
            |Holders(ts[t := th], c)| == |Holders(ts, c)| - (if before then 1 else 0) + (if after then 1 else 0)
  {
    var rest := Holders(ts, c) - {t};
    assert Holders(ts, c) == if t in Holders(ts, c) then rest + {t} else rest;
    assert Holders(ts[t := th], c) == if t in Holders(ts[t := th], c) then rest + {t} else rest;
  }

  lemma SoleHolder(ts: Threads, t: nat, c: Id)
    requires t in Holders(ts, c) && |Holders(ts, c)| == 1
    ensures forall u :: u in ts && u != t && Counted(ts[u].phase) ==> ts[u].count != c
  {
    var others := Holders(ts, c) - {t};
    assert |others| == 0;
    assert forall u :: u in ts && u != t && Counted(ts[u].phase) && ts[u].count == c ==> u in others;
  }

  lemma OtherHolder(ts: Threads, t: nat, c: Id) returns (u: nat)
    requires t in Holders(ts, c) && |Holders(ts, c)| > 1
    ensures u in ts && u != t && Counted(ts[u].phase) && ts[u].count == c
  {
    var others := Holders(ts, c) - {t};
    assert |others| > 0;
    u := SomeElement(others);
  }

  // ---- frames ----

  lemma UsedIsLive(h: Heap, th: Thread)
    requires Wired(h, th)
    ensures forall id :: Owns(th, id) || Shares(th, id) ==> id in h
  {}

  /** The cells a thread owns are the same, those it shares are of the same kind. */
  ghost predicate Kept(h: Heap, h': Heap, th: Thread) {
    forall id :: (Owns(th, id) || Shares(th, id)) && id in h ==>
      && id in h'
      && (h[id].TableCell? <==> h'[id].TableCell?)
      && (h[id].CountCell? <==> h'[id].CountCell?)
      && (h[id].TableCell? && Owns(th, id) ==> h'[id] == h[id])
  }

  lemma WiredFrame(h: Heap, h': Heap, th: Thread)
    requires Wired(h, th) && Kept(h, h', th)
    ensures Wired(h', th)
  {
    match th.phase
    case ExecCopied(copy, snap) =>
      assert Owns(th, copy) && Shares(th, th.table) && Shares(th, th.count) && Shares(th, th.mutex);
    case ExecLast(copy, snap) =>
      assert Owns(th, copy) && Owns(th, th.table) && Owns(th, th.count) && Owns(th, th.mutex);
    case ExecLeft(copy, snap) => assert Owns(th, copy);
    case ExecReady(copy, snap) => assert Owns(th, copy) && Owns(th, th.count) && Owns(th, th.mutex);
    case ExecStripping(_) => assert Owns(th, th.table) && Owns(th, th.count) && Owns(th, th.mutex);
    case FreeingTable => assert Owns(th, th.table) && Owns(th, th.count) && Owns(th, th.mutex);
    case FreeingCount => assert Owns(th, th.count) && Owns(th, th.mutex);
    case FreeingMutex => assert Owns(th, th.mutex);
    case PendingCopy => assert Owns(th, th.table);
    case PendingShared => assert Shares(th, th.table) && Shares(th, th.count) && Shares(th, th.mutex);
    case Running => assert Shares(th, th.table) && Shares(th, th.count) && Shares(th, th.mutex);
    case ExecCopying => assert Shares(th, th.table) && Shares(th, th.count) && Shares(th, th.mutex);
    case Gone =>
  }

  /** A thread that takes on only fresh ids stays apart from the others. */
  lemma ApartShrunk(th: Thread, th': Thread, u: Thread, h: Heap)
    requires Apart(th, u) && Wired(h, u)
    requires forall id :: Owns(th', id) ==> id !in h || Owns(th, id)
    requires forall id :: Shares(th', id) ==> Shares(th, id)
    requires Sharer(th'.phase) ==>
      Sharer(th.phase) && th'.table == th.table && th'.count == th.count && th'.mutex == th.mutex
    ensures Apart(th', u)
  {
    UsedIsLive(h, u);
  }

  // ---- what a step has to establish ----

  /** The counts of h are those of s corrected for thread t becoming th. */
  ghost predicate CountsFollow(s: State, h: Heap, t: nat, th: Thread) {
    && (forall c :: CountAt(h, c) && CountAt(s.heap, c) ==>
          h[c].count == s.heap[c].count
                        - (if t in s.threads && Counted(s.threads[t].phase) && s.threads[t].count == c then 1 else 0)
                        + (if Counted(th.phase) && th.count == c then 1 else 0))
    && (forall c :: CountAt(h, c) && !CountAt(s.heap, c) ==>
          c !in s.heap && h[c].count == if Counted(th.phase) && th.count == c then 1 else 0)
  }

  lemma CountsMoved(s: State, h: Heap, t: nat, th: Thread)
    requires Inv(s) && CountsFollow(s, h, t, th)
    ensures forall c :: CountAt(h, c) ==> h[c].count == |Holders(s.threads[t := th], c)|
  {
    forall c | CountAt(h, c) ensures h[c].count == |Holders(s.threads[t := th], c)| {
      HoldersMoved(s.threads, t, th, c);
      if c !in s.heap {
        forall u | u in s.threads ensures !(Counted(s.threads[u].phase) && s.threads[u].count == c) {
          assert Wired(s.heap, s.threads[u]);
        }
        assert Holders(s.threads, c) == {};
      }
    }
  }

  /** t gives up no count that a pending child needs. */
  ghost predicate PendingKept(ts: Threads, t: nat, th: Thread) {
    && (t in ts && Counted(ts[t].phase) ==>
          || (Counted(th.phase) && th.count == ts[t].count)
          || |Holders(ts, ts[t].count)| > 1
          || !PendingOn(ts, ts[t].count))
    && (th.phase.PendingShared? ==> t !in ts && |Holders(ts, th.count)| > 0)
  }

  lemma PendingMoved(ts: Threads, t: nat, th: Thread)
    requires PendingHeld(ts) && PendingKept(ts, t, th)
    ensures PendingHeld(ts[t := th])
  {
    var ts' := ts[t := th];
    forall p | p in ts' && ts'[p].phase.PendingShared? ensures |Holders(ts', ts'[p].count)| > 0 {
      HoldersMoved(ts, t, th, ts'[p].count);
    }
  }

  ghost predicate SharedByOther(ts: Threads, t: nat, id: Id) {
    exists u :: u in ts && u != t && Shares(ts[u], id)
  }

  /** t keeps hold of what it used, unless that is gone or somebody else shares it. */
  ghost predicate ReachKept(s: State, h: Heap, t: nat, th: Thread) {
    && (forall id :: id in h ==> id in s.heap || Owns(th, id) || Shares(th, id))
    && (t in s.threads ==> forall id :: id in h && (Owns(s.threads[t], id) || Shares(s.threads[t], id)) ==>
          Owns(th, id) || Shares(th, id) || SharedByOther(s.threads, t, id))
  }

  lemma ReachedMoved(s: State, h: Heap, t: nat, th: Thread)
    requires NoOrphans(s) && ReachKept(s, h, t, th)
    ensures forall id :: id in h ==> Reached(s.threads[t := th], id)
  {
    var ts' := s.threads[t := th];
    forall id | id in h ensures Reached(ts', id) {
      if Owns(th, id) || Shares(th, id) {
        assert t in ts' && (Owns(ts'[t], id) || Shares(ts'[t], id));
      } else {
        assert Reached(s.threads, id);
        var u :| u in s.threads && (Owns(s.threads[u], id) || Shares(s.threads[u], id));
        if u == t {
          assert SharedByOther(s.threads, t, id);
          var v :| v in s.threads && v != t && Shares(s.threads[v], id);
          assert v in ts' && Shares(ts'[v], id);
        } else {
          assert u in ts' && (Owns(ts'[u], id) || Shares(ts'[u], id));
        }
      }
    }
  }

  /** The others keep what they use and have nothing to do with what th owns. */
  ghost predicate OthersKept(s: State, h: Heap, t: nat, th: Thread) {
    forall u :: u in s.threads && u != t ==> Kept(s.heap, h, s.threads[u]) && Apart(th, s.threads[u])
  }

  /** The invariant after thread t has become th. */
  lemma Rebuild(s: State, s': State, t: nat, th: Thread)
    requires Inv(s) && s'.threads == s.threads[t := th] && !s'.crashed && Accounted(s')
    requires Wired(s'.heap, th) && OthersKept(s, s'.heap, t, th)
    requires CountsFollow(s, s'.heap, t, th) && PendingKept(s.threads, t, th) && ReachKept(s, s'.heap, t, th)
    ensures Inv(s')
  {
    CountsMoved(s, s'.heap, t, th);
    PendingMoved(s.threads, t, th);
    ReachedMoved(s, s'.heap, t, th);
    RebuildThreads(s, s', t, th);
  }

  lemma RebuildThreads(s: State, s': State, t: nat, th: Thread)
    requires AllWired(s) && AllApart(s.threads) && s'.threads == s.threads[t := th]
    requires Wired(s'.heap, th) && OthersKept(s, s'.heap, t, th)
    ensures AllWired(s') && AllApart(s'.threads)
  {
    forall u | u in s'.threads ensures Wired(s'.heap, s'.threads[u]) {
      if u != t {
        WiredFrame(s.heap, s'.heap, s.threads[u]);
      }
    }
    forall v, u | v in s'.threads && u in s'.threads && v != u ensures Apart(s'.threads[v], s'.threads[u]) {
      if u == t {
        assert Apart(th, s.threads[v]);
      }
    }
  }

  // ---- what a step may rely on ----

  /** What one thread uses, phase by phase. */
  lemma Uses(th: Thread)
    ensures forall id :: Shares(th, id) <==> Sharer(th.phase) && (id == th.table || id == th.count || id == th.mutex)
    ensures th.phase.PendingShared? || th.phase.Running? || th.phase.ExecCopying? || th.phase.Gone? ==>
      forall id :: !Owns(th, id)
    ensures th.phase.PendingCopy? ==> forall id :: Owns(th, id) <==> id == th.table
    ensures th.phase.ExecCopied? || th.phase.ExecLeft? ==> forall id :: Owns(th, id) <==> id == th.phase.copy
    ensures th.phase.ExecLast? ==>
      forall id :: Owns(th, id) <==> id == th.phase.copy || id == th.table || id == th.count || id == th.mutex
    ensures th.phase.ExecReady? ==>
      forall id :: Owns(th, id) <==> id == th.phase.copy || id == th.count || id == th.mutex
    ensures th.phase.ExecStripping? || th.phase.FreeingTable? ==>
      forall id :: Owns(th, id) <==> id == th.table || id == th.count || id == th.mutex
    ensures th.phase.FreeingCount? ==> forall id :: Owns(th, id) <==> id == th.count || id == th.mutex
    ensures th.phase.FreeingMutex? ==> forall id :: Owns(th, id) <==> id == th.mutex
  {}

  lemma Relies(s: State, t: nat)
    requires Inv(s) && t in s.threads
    ensures Wired(s.heap, s.threads[t])
    ensures forall u :: u in s.threads && u != t ==> Apart(s.threads[t], s.threads[u])
    ensures CountAt(s.heap, s.threads[t].count) ==>
      s.heap[s.threads[t].count].count == |Holders(s.threads, s.threads[t].count)|
    ensures Counted(s.threads[t].phase) ==> t in Holders(s.threads, s.threads[t].count)
    ensures Accounted(s) && !s.crashed
  {}

  /** A thread that holds a count of one, with no child pending on it, shares with nobody. */
  lemma SoleSharer(s: State, t: nat)
    requires Inv(s) && t in s.threads
    requires var th := s.threads[t];
      && Counted(th.phase) && Sharer(th.phase)
      && CountAt(s.heap, th.count) && s.heap[th.count].count <= 1 && !PendingOn(s.threads, th.count)
    ensures Exclusive(s, t)
  {
    var th := s.threads[t];
    Relies(s, t);
    assert Holders(s.threads, th.count) != {};
    SoleHolder(s.threads, t, th.count);
    forall u | u in s.threads && u != t ensures Unrelated(th, s.threads[u]) {
      assert Wired(s.heap, s.threads[u]);
      SeparateSharers(s.heap, th, s.threads[u]);
    }
  }

  /** No id that one of the two uses is used by the other. */
  ghost predicate Unrelated(th: Thread, u: Thread) {
    && (forall id :: Owns(th, id) || Shares(th, id) ==> !Owns(u, id) && !Shares(u, id))
  }

  /** Sharers of different counts share nothing. */
  lemma SeparateSharers(h: Heap, th: Thread, u: Thread)
    requires Wired(h, th) && Wired(h, u) && Apart(th, u)
    requires Sharer(u.phase) ==> u.count != th.count
    ensures Unrelated(th, u)
  {}

  // ---- the steps ----

  /** All that Rebuild asks for. */
  ghost predicate Ready(s: State, h: Heap, t: nat, th: Thread) {
    && Wired(h, th)
    && OthersKept(s, h, t, th)
    && CountsFollow(s, h, t, th)
    && PendingKept(s.threads, t, th)
    && ReachKept(s, h, t, th)
  }

  /** Nobody else uses what t uses. */
  ghost predicate Exclusive(s: State, t: nat)
    requires t in s.threads
  {
    forall u :: u in s.threads && u != t ==> Unrelated(s.threads[t], s.threads[u])
  }

  lemma OwnersAreExclusive(s: State, t: nat)
    requires Inv(s) && t in s.threads && !Sharer(s.threads[t].phase)
    ensures Exclusive(s, t)
  {
    hide Accounted, NoOrphans, CountsRight, PendingHeld, AllWired;
    forall u | u in s.threads && u != t ensures Unrelated(s.threads[t], s.threads[u]) {
      assert Apart(s.threads[t], s.threads[u]);
    }
  }

  /** Whatever t does with what it alone uses, and with fresh cells, the others are unaffected. */
  lemma ExclusiveStep(s: State, t: nat, h: Heap, th: Thread)
    requires Inv(s) && t in s.threads && Exclusive(s, t)
    requires forall id :: Owns(th, id) || Shares(th, id) ==>
      Owns(s.threads[t], id) || Shares(s.threads[t], id) || id !in s.heap
    requires forall id :: id in s.heap && !Owns(s.threads[t], id) && !Shares(s.threads[t], id) ==>
      id in h && h[id] == s.heap[id]
    ensures OthersKept(s, h, t, th)
  {
    hide Accounted, NoOrphans, CountsRight, PendingHeld, AllApart, Owns, Shares;
    SharersShare(s.threads);
    Uses(th);
    forall u | u in s.threads && u != t ensures Kept(s.heap, h, s.threads[u]) && Apart(th, s.threads[u]) {
      assert Unrelated(s.threads[t], s.threads[u]);
      assert Wired(s.heap, s.threads[u]);
      UsedIsLive(s.heap, s.threads[u]);
    }
  }

  /** Whatever a sharer does that keeps the kind of every cell, and the contents of the
      tables it does not share, the others are unaffected. */
  lemma SharerStep(s: State, t: nat, h: Heap, th: Thread)
    requires Inv(s) && t in s.threads
    requires forall id :: Owns(th, id) ==> Owns(s.threads[t], id) || id !in s.heap
    requires forall id :: Shares(th, id) ==> Shares(s.threads[t], id)
    requires Sharer(th.phase) ==>
      && Sharer(s.threads[t].phase)
      && th.table == s.threads[t].table && th.count == s.threads[t].count && th.mutex == s.threads[t].mutex
    requires forall id :: id in s.heap ==>
      && id in h
      && (h[id] == s.heap[id] || (h[id].CountCell? && s.heap[id].CountCell?)
          || (h[id].TableCell? && s.heap[id].TableCell? && Shares(s.threads[t], id)))
    ensures OthersKept(s, h, t, th)
  {
    hide Accounted, NoOrphans, CountsRight, PendingHeld, Owns, Shares;
    forall u | u in s.threads && u != t ensures Kept(s.heap, h, s.threads[u]) && Apart(th, s.threads[u]) {
      assert Wired(s.heap, s.threads[u]);
      assert Apart(s.threads[t], s.threads[u]);
      ApartShrunk(s.threads[t], th, s.threads[u], s.heap);
    }
  }

  /** While the count is not one, whatever t shares is shared by somebody else too. */
  lemma SharerLeft(s: State, t: nat)
    requires Inv(s) && t in s.threads && Sharer(s.threads[t].phase) && Counted(s.threads[t].phase)
    requires CountAt(s.heap, s.threads[t].count) && s.heap[s.threads[t].count].count != 1
    ensures |Holders(s.threads, s.threads[t].count)| > 1
    ensures forall id :: Shares(s.threads[t], id) ==> SharedByOther(s.threads, t, id)
  {
    hide Inv, Accounted, Owns, Shares, Wired;
    Relies(s, t);
    var th := s.threads[t];
    Uses(th);
    assert Holders(s.threads, th.count) != {};
    var u := OtherHolder(s.threads, t, th.count);
    assert Apart(th, s.threads[u]);
    Uses(s.threads[u]);
    assert Shares(th, th.count) && !Owns(s.threads[u], th.count);
    forall id | Shares(th, id) ensures SharedByOther(s.threads, t, id) {
      assert Shares(s.threads[u], id);
    }
  }

  lemma CloneShared(s: State, t: nat, child: nat)
    requires Inv(s) && t in s.threads && s.threads[t].phase.Running? && child !in s.threads
    ensures Ready(s, s.heap, child, s.threads[t].(phase := PendingShared))
  {
    hide Inv, Accounted, Owns, Shares;
    Relies(s, t);
    Uses(s.threads[t]);
    var parent := s.threads[t];
    var th := parent.(phase := PendingShared);
    Uses(th);
    assert Holders(s.threads, th.count) != {};
  }

  lemma CloneCopied(s: State, t: nat, child: nat)
    requires Inv(s) && t in s.threads && s.threads[t].phase.Running? && child !in s.threads
    ensures TableAt(s.heap, s.threads[t].table)
    ensures Ready(s, s.heap[s.next := s.heap[s.threads[t].table]], child, Thread(PendingCopy, s.next, 0, 0))
  {
    hide Inv, Owns, Shares;
    Relies(s, t);
    Uses(s.threads[t]);
    var th, h := Thread(PendingCopy, s.next, 0, 0), s.heap[s.next := s.heap[s.threads[t].table]];
    Uses(th);
    OthersAreLive(s);
    assert s.next !in s.heap;
    assert OthersKept(s, h, child, th);
    assert CountsFollow(s, h, child, th);
    assert PendingKept(s.threads, child, th);
    assert ReachKept(s, h, child, th);
  }

  lemma RegisterShared(s: State, t: nat)
    requires Inv(s) && t in s.threads && s.threads[t].phase.PendingShared?
    ensures CountAt(s.heap, s.threads[t].count)
    ensures Ready(s, Bumped(s.heap, s.threads[t].count, 1), t, s.threads[t].(phase := Running))
  {
    hide Inv, Accounted, Apart, Kept, OthersKept, Owns, Shares;
    Relies(s, t);
    Uses(s.threads[t]);
    var th := s.threads[t];
    Uses(th.(phase := Running));
    SharerStep(s, t, Bumped(s.heap, th.count, 1), th.(phase := Running));
  }

  lemma RegisterCopied(s: State, t: nat)
    requires Inv(s) && t in s.threads && s.threads[t].phase.PendingCopy?
    ensures Ready(s, s.heap[s.next := CountCell(1)][s.next + 1 := MutexCell], t,
                  Thread(Running, s.threads[t].table, s.next, s.next + 1))
  {
    hide Inv, Apart, Kept, OthersKept, Owns, Shares;
    Relies(s, t);
    Uses(s.threads[t]);
    var h' := s.heap[s.next := CountCell(1)][s.next + 1 := MutexCell];
    var th' := Thread(Running, s.threads[t].table, s.next, s.next + 1);
    Uses(th');
    OwnersAreExclusive(s, t);
    ExclusiveStep(s, t, h', th');
  }

  lemma TableEdited(s: State, t: nat, table: Table)
    requires Inv(s) && t in s.threads && s.threads[t].phase.Running?
    ensures Trio(s.heap, s.threads[t])
    ensures Ready(s, s.heap[s.threads[t].table := TableCell(table)], t, s.threads[t])
  {
    hide Inv, Accounted, Apart, Kept, OthersKept, Owns, Shares;
    Relies(s, t);
    Uses(s.threads[t]);
    SharerStep(s, t, s.heap[s.threads[t].table := TableCell(table)], s.threads[t]);
  }

  lemma TestedShared(s: State, t: nat)
    requires Inv(s) && t in s.threads && s.threads[t].phase.Running?
    ensures Trio(s.heap, s.threads[t])
    ensures Ready(s, s.heap, t, s.threads[t].(phase := ExecCopying))
  {
    hide Inv, Accounted, Apart, Kept, OthersKept, Owns, Shares;
    Relies(s, t);
    Uses(s.threads[t]);
    var th := s.threads[t];
    Uses(th.(phase := ExecCopying));
    SharerStep(s, t, s.heap, th.(phase := ExecCopying));
  }

  lemma TestedSole(s: State, t: nat)
    requires Inv(s) && t in s.threads && s.threads[t].phase.Running?
    requires CountAt(s.heap, s.threads[t].count) ==>
      s.heap[s.threads[t].count].count <= 1 && !PendingOn(s.threads, s.threads[t].count)
    ensures Trio(s.heap, s.threads[t])
    ensures Ready(s, s.heap, t, s.threads[t].(phase := ExecStripping(Contents(s.heap, s.threads[t].table))))
  {
    hide Inv, Accounted, Apart, Kept, OthersKept, Owns, Shares;
    Relies(s, t);
    Uses(s.threads[t]);
    SoleSharer(s, t);
    var th := s.threads[t];
    var th' := th.(phase := ExecStripping(Contents(s.heap, th.table)));
    Uses(th');
    ExclusiveStep(s, t, s.heap, th');
  }

  lemma TableCopied(s: State, t: nat)
    requires Inv(s) && t in s.threads && s.threads[t].phase.ExecCopying?
    ensures Trio(s.heap, s.threads[t])
    ensures var th := s.threads[t];
            Ready(s, s.heap[s.next := s.heap[th.table]], t, th.(phase := ExecCopied(s.next, s.heap[th.table].table)))
  {
    hide Inv, Apart, Kept, OthersKept, Owns, Shares;
    Relies(s, t);
    Uses(s.threads[t]);
    var th := s.threads[t];
    var th' := th.(phase := ExecCopied(s.next, s.heap[th.table].table));
    Uses(th');
    SharerStep(s, t, s.heap[s.next := s.heap[th.table]], th');
  }

  /** The last sharer becomes the owner of all that was shared. */
  lemma DecrementedLast(s: State, t: nat, phase: Phase)
    requires Inv(s) && t in s.threads
    requires var th := s.threads[t];
      && (th.phase.ExecCopied? || th.phase.Running?)
      && phase == (if th.phase.Running? then FreeingTable else ExecLast(th.phase.copy, th.phase.snap))
      && (CountAt(s.heap, th.count) ==> s.heap[th.count].count == 1 && !PendingOn(s.threads, th.count))
    ensures Trio(s.heap, s.threads[t])
    ensures Ready(s, Bumped(s.heap, s.threads[t].count, -1), t, s.threads[t].(phase := phase))
  {
    hide Inv, Accounted, Apart, Kept, OthersKept, Owns, Shares;
    Relies(s, t);
    Uses(s.threads[t]);
    SoleSharer(s, t);
    var th := s.threads[t];
    var th' := th.(phase := phase);
    Uses(th');
    ExclusiveStep(s, t, Bumped(s.heap, th.count, -1), th');
  }

  /** Another sharer is left, and shares all that this thread gives up. */
  lemma DecrementedShared(s: State, t: nat, phase: Phase)
    requires Inv(s) && t in s.threads
    requires var th := s.threads[t];
      && (th.phase.ExecCopied? || th.phase.Running?)
      && phase == (if th.phase.Running? then Gone else ExecLeft(th.phase.copy, th.phase.snap))
      && (CountAt(s.heap, th.count) ==> s.heap[th.count].count != 1)
    ensures Trio(s.heap, s.threads[t])
    ensures Ready(s, Bumped(s.heap, s.threads[t].count, -1), t, s.threads[t].(phase := phase))
  {
    hide Inv, Accounted, Apart, Kept, OthersKept, Owns, Shares;
    Relies(s, t);
    Uses(s.threads[t]);
    var th := s.threads[t];
    var th' := th.(phase := phase);
    Uses(th');
    SharerLeft(s, t);
    hide SharedByOther, Holders;
    SharerStep(s, t, Bumped(s.heap, th.count, -1), th');
  }

  lemma OldTableFreed(s: State, t: nat)
    requires Inv(s) && t in s.threads && s.threads[t].phase.ExecLast?
    ensures var th := s.threads[t];
            && Trio(s.heap, th)
            && Ready(s, s.heap - {th.table}, t, th.(phase := ExecReady(th.phase.copy, th.phase.snap)))
  {
    hide Inv, Accounted, Apart, Kept, OthersKept, Owns, Shares;
    Relies(s, t);
    Uses(s.threads[t]);
    var th := s.threads[t];
    var th' := th.(phase := ExecReady(th.phase.copy, th.phase.snap));
    Uses(th');
    OwnersAreExclusive(s, t);
    ExclusiveStep(s, t, s.heap - {th.table}, th');
  }

  lemma CountAllocated(s: State, t: nat)
    requires Inv(s) && t in s.threads && s.threads[t].phase.ExecLeft?
    ensures var th := s.threads[t];
            Ready(s, s.heap[s.next := CountCell(0)][s.next + 1 := MutexCell], t,
                  Thread(ExecReady(th.phase.copy, th.phase.snap), th.table, s.next, s.next + 1))
  {
    hide Inv, Apart, Kept, OthersKept, Owns, Shares;
    Relies(s, t);
    Uses(s.threads[t]);
    var th := s.threads[t];
    var h' := s.heap[s.next := CountCell(0)][s.next + 1 := MutexCell];
    var th' := Thread(ExecReady(th.phase.copy, th.phase.snap), th.table, s.next, s.next + 1);
    Uses(th');
    OwnersAreExclusive(s, t);
    ExclusiveStep(s, t, h', th');
  }

  lemma CopyInstalled(s: State, t: nat)
    requires Inv(s) && t in s.threads && s.threads[t].phase.ExecReady?
    ensures var th := s.threads[t];
            && CountAt(s.heap, th.count)
            && Ready(s, Bumped(s.heap, th.count, 1), t,
                     Thread(ExecStripping(th.phase.snap), th.phase.copy, th.count, th.mutex))
  {
    hide Inv, Accounted, Apart, Kept, OthersKept, Owns, Shares;
    Relies(s, t);
    Uses(s.threads[t]);
    var th := s.threads[t];
    var th' := Thread(ExecStripping(th.phase.snap), th.phase.copy, th.count, th.mutex);
    Uses(th');
    OwnersAreExclusive(s, t);
    ExclusiveStep(s, t, Bumped(s.heap, th.count, 1), th');
  }

  lemma TableStripped(s: State, t: nat)
    requires Inv(s) && t in s.threads && s.threads[t].phase.ExecStripping?
    ensures var th := s.threads[t];
            && Trio(s.heap, th)
            && Ready(s, s.heap[th.table := TableCell(Stripped(s.heap[th.table].table))], t, th.(phase := Running))
  {
    hide Inv, Accounted, Apart, Kept, OthersKept, Owns, Shares, Stripped;
    Relies(s, t);
    Uses(s.threads[t]);
    var th := s.threads[t];
    var th' := th.(phase := Running);
    Uses(th');
    OwnersAreExclusive(s, t);
    ExclusiveStep(s, t, s.heap[th.table := TableCell(Stripped(s.heap[th.table].table))], th');
  }

  /** An exiting thread frees one cell after the other. */
  lemma ExitFreed(s: State, t: nat, id: Id, phase: Phase)
    requires Inv(s) && t in s.threads
    requires var th := s.threads[t];
      || (th.phase.FreeingTable? && id == th.table && phase == FreeingCount)
      || (th.phase.FreeingCount? && id == th.count && phase == FreeingMutex)
      || (th.phase.FreeingMutex? && id == th.mutex && phase == Gone)
    ensures var th := s.threads[t];
            && id in s.heap
            && (th.phase.FreeingTable? ==> TableAt(s.heap, id))
            && (th.phase.FreeingCount? ==> CountAt(s.heap, id))
            && (th.phase.FreeingMutex? ==> MutexAt(s.heap, id))
            && Ready(s, s.heap - {id}, t, th.(phase := phase))
  {
    hide Inv, Accounted, Apart, Kept, OthersKept, Owns, Shares;
    Relies(s, t);
    Uses(s.threads[t]);
    var th := s.threads[t];
    var th' := th.(phase := phase);
    Uses(th');
    OwnersAreExclusive(s, t);
    ExclusiveStep(s, t, s.heap - {id}, th');
  }

  lemma SharersShare(ts: Threads)
    ensures forall u :: u in ts && Sharer(ts[u].phase) ==>
      Shares(ts[u], ts[u].table) && Shares(ts[u], ts[u].count) && Shares(ts[u], ts[u].mutex)
  {}

  lemma OthersAreLive(s: State)
    requires Inv(s)
    ensures forall u, id: Id :: u in s.threads && (Owns(s.threads[u], id) || Shares(s.threads[u], id)) ==>
      id in s.heap && id < s.next
    ensures forall id :: id in s.heap ==> id < s.next
  {
    forall u | u in s.threads
      ensures forall id: Id :: Owns(s.threads[u], id) || Shares(s.threads[u], id) ==> id in s.heap
    {
      UsedIsLive(s.heap, s.threads[u]);
    }
  }

  lemma OthersDoNotUse(s: State, t: nat)
    requires Inv(s) && t in s.threads
    ensures forall u, id :: u in s.threads && u != t && Owns(s.threads[t], id) ==>
      !Owns(s.threads[u], id) && !Shares(s.threads[u], id)
  {
    hide Accounted, NoOrphans, CountsRight, PendingHeld, AllWired;
    forall u | u in s.threads && u != t
      ensures forall id :: Owns(s.threads[t], id) ==> !Owns(s.threads[u], id) && !Shares(s.threads[u], id)
    {
      assert Apart(s.threads[t], s.threads[u]);
    }
  }

  // ---- every step ----

  lemma Same(s: State, s': State)
    requires Accounted(s) && s'.next == s.next && s'.freed == s.freed
    requires forall id :: id in s.heap <==> id in s'.heap
    ensures Accounted(s')
  {}

  lemma Allocated(s: State, s': State)
    requires Accounted(s) && s'.freed == s.freed && s.next <= s'.next
    requires forall id :: id in s'.heap <==> id in s.heap || s.next <= id < s'.next
    ensures Accounted(s')
  {}

  lemma FreedOnce(s: State, id: Id)
    requires Accounted(s) && id in s.heap
    ensures Accounted(Freed(s, id))
  {}

  lemma TakesEffect(s: State, a: Action, s': State, t: nat, th: Thread)
    requires Inv(s) && Enabled(s, a) && Safe(s, a) && s' == Effect(s, a)
    requires s'.threads == s.threads[t := th] && Accounted(s') && Ready(s, s'.heap, t, th)
    ensures Inv(Next(s, a))
  {
    hide Inv, Effect, Safe, Accounted, Wired, OthersKept, CountsFollow, PendingKept, ReachKept;
    NotCrashed(s);
    EffectDoesNotCrash(s, a);
    Rebuild(s, s', t, th);
  }

  lemma NotCrashed(s: State)
    requires Inv(s)
    ensures !s.crashed
  {}

  lemma EffectDoesNotCrash(s: State, a: Action)
    requires Enabled(s, a) && Safe(s, a)
    ensures Effect(s, a).crashed == s.crashed
  {}

  /** A guarded step from a good state touches nothing that is gone and leads to a good state. */
  lemma StepKeepsInv(s: State, a: Action)
    requires Inv(s) && Enabled(s, a) && Guard(s, a)
    ensures Safe(s, a) && Inv(Next(s, a))
  {
    match a
    case Clone(_, _, shareFiles) => if shareFiles { StepCloneShared(s, a); } else { StepCloneCopied(s, a); }
    case Register(_) => StepRegister(s, a);
    case Edit(_, _) => StepEdit(s, a);
    case ExecTest(_) => StepExecTest(s, a);
    case ExecCopy(_) => StepExecCopy(s, a);
    case ExecDec(_) => StepDec(s, a);
    case ExecFreeOld(_) => StepExecFreeOld(s, a);
    case ExecAlloc(_) => StepExecAlloc(s, a);
    case ExecInstall(_) => StepExecInstall(s, a);
    case ExecStrip(_) => StepExecStrip(s, a);
    case ExitDec(_) => StepDec(s, a);
    case ExitFreeTable(_) => StepExitFree(s, a);
    case ExitFreeCount(_) => StepExitFree(s, a);
    case ExitFreeMutex(_) => StepExitFree(s, a);
  }

  lemma StepCloneShared(s: State, a: Action)
    requires Inv(s) && Enabled(s, a) && a.Clone? && a.shareFiles
    ensures Safe(s, a) && Inv(Next(s, a))
  {
    hide Inv, Accounted, Ready;
    Relies(s, a.t);
    CloneShared(s, a.t, a.child);
    Same(s, Effect(s, a));
    TakesEffect(s, a, Effect(s, a), a.child, s.threads[a.t].(phase := PendingShared));
  }

  lemma StepCloneCopied(s: State, a: Action)
    requires Inv(s) && Enabled(s, a) && a.Clone? && !a.shareFiles
    ensures Safe(s, a) && Inv(Next(s, a))
  {
    hide Inv, Accounted, Ready;
    Relies(s, a.t);
    CloneCopied(s, a.t, a.child);
    Allocated(s, Effect(s, a));
    TakesEffect(s, a, Effect(s, a), a.child, Thread(PendingCopy, s.next, 0, 0));
  }

  lemma StepRegister(s: State, a: Action)
    requires Inv(s) && Enabled(s, a) && a.Register?
    ensures Safe(s, a) && Inv(Next(s, a))
  {
    hide Inv, Accounted, Ready;
    Relies(s, a.t);
    if s.threads[a.t].phase.PendingShared? {
      RegisterShared(s, a.t);
      Same(s, Effect(s, a));
    } else {
      RegisterCopied(s, a.t);
      Allocated(s, Effect(s, a));
    }
    TakesEffect(s, a, Effect(s, a), a.t, Effect(s, a).threads[a.t]);
  }

  lemma StepEdit(s: State, a: Action)
    requires Inv(s) && Enabled(s, a) && a.Edit?
    ensures Safe(s, a) && Inv(Next(s, a))
  {
    hide Inv, Accounted, Ready, Edited, Defined;
    Relies(s, a.t);
    TableEdited(s, a.t, map[]);
    TableEdited(s, a.t, Edited(Contents(s.heap, s.threads[a.t].table), a.edit));
    Same(s, Effect(s, a));
    TakesEffect(s, a, Effect(s, a), a.t, s.threads[a.t]);
  }

  lemma StepExecTest(s: State, a: Action)
    requires Inv(s) && Enabled(s, a) && a.ExecTest? && Guard(s, a)
    ensures Safe(s, a) && Inv(Next(s, a))
  {
    hide Inv, Accounted, Ready, PendingOn;
    Relies(s, a.t);
    TestedShared(s, a.t);
    assert s.heap[s.threads[a.t].count].count >= 1;
    if s.heap[s.threads[a.t].count].count <= 1 {
      TestedSole(s, a.t);
    }
    Same(s, Effect(s, a));
    TakesEffect(s, a, Effect(s, a), a.t, Effect(s, a).threads[a.t]);
  }

  lemma StepExecCopy(s: State, a: Action)
    requires Inv(s) && Enabled(s, a) && a.ExecCopy?
    ensures Safe(s, a) && Inv(Next(s, a))
  {
    hide Inv, Accounted, Ready;
    Relies(s, a.t);
    TableCopied(s, a.t);
    Allocated(s, Effect(s, a));
    TakesEffect(s, a, Effect(s, a), a.t, Effect(s, a).threads[a.t]);
  }

  lemma StepDec(s: State, a: Action)
    requires Inv(s) && Enabled(s, a) && (a.ExecDec? || a.ExitDec?) && Guard(s, a)
    ensures Safe(s, a) && Inv(Next(s, a))
  {
    hide Inv, Accounted, Ready, PendingOn;
    Relies(s, a.t);
    var th := s.threads[a.t];
    assert CountAt(s.heap, th.count);
    if s.heap[th.count].count == 1 {
      DecrementedLast(s, a.t, if a.ExitDec? then FreeingTable else ExecLast(th.phase.copy, th.phase.snap));
    } else {
      DecrementedShared(s, a.t, if a.ExitDec? then Gone else ExecLeft(th.phase.copy, th.phase.snap));
    }
    Same(s, Effect(s, a));
    TakesEffect(s, a, Effect(s, a), a.t, Effect(s, a).threads[a.t]);
  }

  lemma StepExecFreeOld(s: State, a: Action)
    requires Inv(s) && Enabled(s, a) && a.ExecFreeOld?
    ensures Safe(s, a) && Inv(Next(s, a))
  {
    hide Inv, Accounted, Ready;
    Relies(s, a.t);
    OldTableFreed(s, a.t);
    FreedOnce(s, s.threads[a.t].table);
    Same(Freed(s, s.threads[a.t].table), Effect(s, a));
    TakesEffect(s, a, Effect(s, a), a.t, Effect(s, a).threads[a.t]);
  }

  lemma StepExecAlloc(s: State, a: Action)
    requires Inv(s) && Enabled(s, a) && a.ExecAlloc?
    ensures Safe(s, a) && Inv(Next(s, a))
  {
    hide Inv, Accounted, Ready;
    Relies(s, a.t);
    CountAllocated(s, a.t);
    Allocated(s, Effect(s, a));
    TakesEffect(s, a, Effect(s, a), a.t, Effect(s, a).threads[a.t]);
  }

  lemma StepExecInstall(s: State, a: Action)
    requires Inv(s) && Enabled(s, a) && a.ExecInstall?
    ensures Safe(s, a) && Inv(Next(s, a))
  {
    hide Inv, Accounted, Ready;
    Relies(s, a.t);
    CopyInstalled(s, a.t);
    Same(s, Effect(s, a));
    TakesEffect(s, a, Effect(s, a), a.t, Effect(s, a).threads[a.t]);
  }

  lemma StepExecStrip(s: State, a: Action)
    requires Inv(s) && Enabled(s, a) && a.ExecStrip?
    ensures Safe(s, a) && Inv(Next(s, a))
  {
    hide Inv, Accounted, Ready, Stripped;
    Relies(s, a.t);
    TableStripped(s, a.t);
    Same(s, Effect(s, a));
    TakesEffect(s, a, Effect(s, a), a.t, Effect(s, a).threads[a.t]);
  }

  lemma StepExitFree(s: State, a: Action)
    requires Inv(s) && Enabled(s, a) && (a.ExitFreeTable? || a.ExitFreeCount? || a.ExitFreeMutex?)
    ensures Safe(s, a) && Inv(Next(s, a))
  {
    hide Inv, Accounted, Ready;
    Relies(s, a.t);
    var th := s.threads[a.t];
    var id := if a.ExitFreeTable? then th.table else if a.ExitFreeCount? then th.count else th.mutex;
    ExitFreed(s, a.t, id, if a.ExitFreeTable? then FreeingCount else if a.ExitFreeCount? then FreeingMutex else Gone);
    FreedOnce(s, id);
    Same(Freed(s, id), Effect(s, a));
    TakesEffect(s, a, Effect(s, a), a.t, Effect(s, a).threads[a.t]);
  }

  // ---- runs ----

  lemma {:induction false} RunKeepsInv(s: State, run: seq<Action>)
    requires Inv(s) && Runs(s, run) && Guarded(s, run)
    ensures Inv(Run(s, run))
    decreases |run|
  {
    hide Inv, Next, Enabled, Guard;
    if run != [] {
      StepKeepsInv(s, run[0]);
      RunKeepsInv(Next(s, run[0]), run[1..]);
    }
  }

  /** No guarded run of any length and interleaving uses a table, count or mutex after it
      was freed, and every live count is the number of threads that hold it. */
  lemma GuardedRunsAreSafe(run: seq<Action>)
    requires Runs(INIT, run) && Guarded(INIT, run)
    ensures var s := Run(INIT, run);
            && !s.crashed
            && (forall c :: CountAt(s.heap, c) ==> s.heap[c].count == |Holders(s.threads, c)|)
            && (forall t :: t in s.threads && Counted(s.threads[t].phase) ==> Trio(s.heap, s.threads[t]))
  {
    InitInv();
    RunKeepsInv(INIT, run);
    var s := Run(INIT, run);
    forall t | t in s.threads && Counted(s.threads[t].phase) ensures Trio(s.heap, s.threads[t]) {
      assert Wired(s.heap, s.threads[t]);
    }
  }

  lemma Balance(s: State)
    requires Inv(s)
    ensures forall id: Id :: s.freed[id] <= 1
    ensures (forall t :: t in s.threads ==> s.threads[t].phase.Gone?) ==>
      forall id: Id :: s.freed[id] == if id < s.next then 1 else 0
  {
    hide Wired, Apart;
    if forall t :: t in s.threads ==> s.threads[t].phase.Gone? {
      assert forall id: Id :: !Reached(s.threads, id);
      assert forall id :: id in s.heap ==> Reached(s.threads, id);
    }
  }

  /** Once all threads are done, everything that was ever allocated has been freed, and
      nothing was freed twice. */
  lemma NothingLeaks(run: seq<Action>)
    requires Runs(INIT, run) && Guarded(INIT, run)
    ensures var s := Run(INIT, run);
            && (forall id: Id :: s.freed[id] <= 1)
            && ((forall t :: t in s.threads ==> s.threads[t].phase.Gone?) ==>
                 forall id: Id :: s.freed[id] == if id < s.next then 1 else 0)
  {
    InitInv();
    RunKeepsInv(INIT, run);
    var s := Run(INIT, run);
    hide Inv, Accounted;
    Balance(s);
  }
}
