/** The descriptor table is an index over the history of edits: what it holds for a
    descriptor is what a walk back through the history, to the table that was there at the
    start, finds. */
module FdHistory {
  import opened FdTables
  import opened Options

  /** The table after a history, or None if some edit looked up a missing entry. */
  function After(t: Table, es: seq<Edit>): Option<Table> {
    if es == [] then Some(t)
    else match After(t, es[..|es| - 1])
      case None => None
      case Some(u) => if Defined(u, es[|es| - 1]) then Some(Edited(u, es[|es| - 1])) else None
  }

  lemma AfterOne(t: Table, e: Edit)
    ensures After(t, []) == Some(t)
    ensures After(t, [e]) == if Defined(t, e) then Some(Edited(t, e)) else None
  {
    assert [e][..0] == [];
  }

  function Entered(t: Table, fd: int): Option<Entry> {
    if fd in t then Some(t[fd]) else None
  }

  /** Walks back through the history, without keeping a table, to the edit that decides what
      the descriptor stands for. A duplicate leads on to its original at that time. */
  function Resolve(t0: Table, es: seq<Edit>, fd: int): Option<Entry>
    decreases |es|
  {
    if es == [] then Entered(t0, fd)
    else
      var init, last := es[..|es| - 1], es[|es| - 1];
      match last
      case Put(target, name, cloexec) =>
        if target == fd then Some(Entry(name, cloexec)) else Resolve(t0, init, fd)
      case Drop(closed) =>
        if closed == fd then None else Resolve(t0, init, fd)
      case Dup(orig, dup, cloexec, slave) =>
        if dup != fd then Resolve(t0, init, fd)
        else
          (match Resolve(t0, init, orig)
           case Some(e) => Some(Entry(if slave then SlaveName(e.filename) else e.filename, cloexec))
           case None => None)
      case SetFlag(flagged, cloexec) =>
        (match Resolve(t0, init, fd)
         case Some(e) => Some(Entry(e.filename, if flagged == fd then cloexec else e.cloexec))
         case None => None)
      case Strip =>
        (match Resolve(t0, init, fd)
         case Some(e) => if e.cloexec then None else Some(e)
         case None => None)
  }

  /** The table agrees with the history on every descriptor. */
  lemma {:induction false} TableIndexesHistory(t0: Table, es: seq<Edit>, fd: int)
    requires After(t0, es).Some?
    ensures Entered(After(t0, es).value, fd) == Resolve(t0, es, fd)
    decreases |es|
  {
    if es != [] {
      var init, last := es[..|es| - 1], es[|es| - 1];
      TableIndexesHistory(t0, init, fd);
      if last.Dup? {
        TableIndexesHistory(t0, init, last.orig);
      }
    }
  }

  /** The edits that change which file a descriptor stands for, or set its close-on-exec flag. */
  predicate Touches(e: Edit, fd: int) {
    match e
    case Put(target, _, _) => target == fd
    case Dup(_, dup, _, _) => dup == fd
    case SetFlag(flagged, _) => flagged == fd
    case Drop(closed) => closed == fd
    case Strip => false
  }

  /** A descriptor that is not touched stays what it is, unless an exec closes it. */
  lemma {:induction false} Untouched(t0: Table, before: seq<Edit>, after: seq<Edit>, fd: int)
    requires Resolve(t0, before, fd).Some?
    requires forall e :: e in after ==> !Touches(e, fd)
    ensures Resolve(t0, before + after, fd)
         == if Resolve(t0, before, fd).value.cloexec && Strip in after then None else Resolve(t0, before, fd)
    decreases |after|
  {
    if after == [] {
      assert before + after == before;
    } else {
      var init, last := after[..|after| - 1], after[|after| - 1];
      assert (before + after)[..|before + after| - 1] == before + init;
      assert last in after && forall e :: e in after <==> e in init || e == last;
      Untouched(t0, before, init, fd);
    }
  }

  /** Whatever happens to the original afterwards, closing and reopening included, a duplicate
      of any kind keeps standing for the file the original stood for when it was duplicated,
      or for its peer; if it is close-on-exec, exactly until the next exec. */
  lemma DuplicateOutlivesOriginal(t0: Table, before: seq<Edit>, orig: int, dup: int, cloexec: bool, slave: bool,
                                  after: seq<Edit>)
    requires Resolve(t0, before, orig).Some?
    requires forall e :: e in after ==> !Touches(e, dup)
    ensures Resolve(t0, before + [Dup(orig, dup, cloexec, slave)] + after, dup)
         == if cloexec && Strip in after then None
            else Some(DupEntry(Resolve(t0, before, orig).value, cloexec, slave))
  {
    var es := before + [Dup(orig, dup, cloexec, slave)];
    assert es[..|es| - 1] == before;
    Untouched(t0, es, after, dup);
  }

  /** The names in the table stay within the buffer through any history. */
  lemma {:induction false} NamesStayShortThroughout(t: Table, es: seq<Edit>)
    requires NamesFit(t) && After(t, es).Some?
    requires forall e :: e in es && e.Put? ==> |e.name| < FILENAME_BUFF_SIZE
    ensures NamesFit(After(t, es).value)
  {
    if es != [] {
      var init, last := es[..|es| - 1], es[|es| - 1];
      assert last in es && forall e :: e in init ==> e in es;
      NamesStayShortThroughout(t, init);
      NamesStayShort(After(t, init).value, last);
    }
  }
}
