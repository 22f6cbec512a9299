/** The table of open file descriptors: edits as values, and the code that makes them in place. */
module FdTables {
  import opened HashIter
  import opened Maps
  import opened Options

  const FILENAME_BUFF_SIZE := 256

  /** The characters of a C string, without the terminator. */
  type CString = s: string | '\0' !in s

  datatype Entry = Entry(filename: CString, cloexec: bool)

  type Table = map<int, Entry>

  /** stdin, stdout and stderr are open from the start. */
  const INITIAL: Table := map[
    0 := Entry("stdin", false),
    1 := Entry("stdout", false),
    2 := Entry("stderr", false)
  ]

  datatype Edit =
    | Put(fd: int, name: CString, cloexec: bool)
    | Dup(orig: int, dup: int, cloexec: bool, slave: bool)
    | SetFlag(fd: int, cloexec: bool)
    | Drop(fd: int)
    | Strip

  /** The code looks these descriptors up and uses the entry without checking that there is one. */
  predicate Defined(t: Table, e: Edit) {
    && (e.Dup? ==> e.orig in t)
    && (e.SetFlag? ==> e.fd in t)
  }

  /** The name of a pseudoterminal's peer; the last ten characters make room if need be. */
  function SlaveName(name: CString): CString {
    if |name| + 7 < FILENAME_BUFF_SIZE then name + " slave"
    else name[..|name| - 10] + "... slave"
  }

  function DupEntry(e: Entry, cloexec: bool, slave: bool): Entry {
    Entry(if slave then SlaveName(e.filename) else e.filename, cloexec)
  }

  function Stripped(t: Table): Table {
    map fd | fd in t && !t[fd].cloexec :: t[fd]
  }

  function Edited(t: Table, e: Edit): Table
    requires Defined(t, e)
  {
    match e
    case Put(fd, name, cloexec) => t[fd := Entry(name, cloexec)]
    case Dup(orig, dup, cloexec, slave) => t[dup := DupEntry(t[orig], cloexec, slave)]
    case SetFlag(fd, cloexec) => t[fd := t[fd].(cloexec := cloexec)]
    case Drop(fd) => t - {fd}
    case Strip => Stripped(t)
  }

  // ---- how long names get ----

  predicate NamesFit(t: Table) {
    forall fd :: fd in t ==> |t[fd].filename| < FILENAME_BUFF_SIZE
  }

  /** A slave's name fits the buffer again, ends in " slave", and starts with the source's
      name, or with what is left of it once ten characters are cut off. */
  lemma SlaveNameFits(name: CString)
    requires |name| < FILENAME_BUFF_SIZE
    ensures var s := SlaveName(name);
            && |s| < FILENAME_BUFF_SIZE
            && |s| >= 6 && s[|s| - 6..] == " slave"
            && (if |name| <= 248 then name <= s && |s| == |name| + 6
                else name[..|name| - 10] <= s && s[|name| - 10..] == "... slave")
  {
    var s := SlaveName(name);
    if |name| <= 248 {
      assert s[|name|..] == " slave";
    } else {
      assert s[|name| - 10..] == "... slave";
      assert s[|s| - 6..] == s[|name| - 10..][3..];
    }
  }

  /** Every edit keeps the names short, through any chain of duplicates of slaves. */
  lemma NamesStayShort(t: Table, e: Edit)
    requires NamesFit(t) && Defined(t, e)
    requires e.Put? ==> |e.name| < FILENAME_BUFF_SIZE
    ensures NamesFit(Edited(t, e))
  {
    if e.Dup? {
      SlaveNameFits(t[e.orig].filename);
    }
  }

  // ---- the code ----

  /** What a NUL-terminated buffer holds. */
  function CStr(buffer: seq<char>): (s: CString)
    ensures s <= buffer
    ensures |s| < |buffer| ==> buffer[|s|] == '\0'
  {
    if buffer == [] || buffer[0] == '\0' then []
    else [buffer[0]] + CStr(buffer[1..])
  }

  lemma {:induction false} CStrOf(s: CString, rest: seq<char>)
    ensures CStr(s + ['\0'] + rest) == s
  {
    var buffer := s + ['\0'] + rest;
    if s != [] {
      assert buffer[0] == s[0] && s[0] in s;
      assert buffer[1..] == s[1..] + ['\0'] + rest;
      CStrOf(s[1..], rest);
    }
  }

  lemma CStrOfPrefix(buffer: seq<char>, s: CString)
    requires s <= buffer && |s| < |buffer| && buffer[|s|] == '\0'
    ensures CStr(buffer) == s
  {
    assert buffer == s + ['\0'] + buffer[|s| + 1..];
    CStrOf(s, buffer[|s| + 1..]);
  }

  /** strcpy to a position that the string already in the buffer reaches. */
  method StrCpy(dest: array<char>, offset: nat, src: CString)
    requires offset <= |CStr(dest[..])| && offset + |src| < dest.Length
    modifies dest
    ensures CStr(dest[..]) == old(CStr(dest[..]))[..offset] + src
  {
    ghost var kept := CStr(dest[..])[..offset];
    assert kept == dest[..offset];
    forall i | 0 <= i < |src| {
      dest[offset + i] := src[i];
    }
    dest[offset + |src|] := '\0';
    assert dest[..] == kept + src + ['\0'] + dest[offset + |src| + 1..];
    CStrOf(kept + src, dest[offset + |src| + 1..]);
  }

  /** Builds the name of a slave in a buffer of fixed size. */
  method MakeSlaveName(name: CString) returns (r: CString)
    requires |name| < FILENAME_BUFF_SIZE
    ensures r == SlaveName(name)
  {
    var filename := new char[FILENAME_BUFF_SIZE];
    StrCpy(filename, 0, name);
    assert CStr(filename[..]) == name;
    var len := |CStr(filename[..])|;
    if len + 7 < FILENAME_BUFF_SIZE {
      StrCpy(filename, len, " slave");
    } else {
      StrCpy(filename, len - 10, "... slave");
    }
    r := CStr(filename[..]);
  }

  class FdEntry {
    const filename: CString
    var cloexec: bool

    function View(): Entry
      reads this
    {
      Entry(filename, cloexec)
    }

    constructor (filename: CString, cloexec: bool)
      ensures View() == Entry(filename, cloexec)
    {
      this.filename, this.cloexec := filename, cloexec;
    }
  }

  class FdTable {
    var entries: map<int, FdEntry>

    ghost function Owned(): set<FdEntry>
      reads this
    {
      set fd | fd in entries :: entries[fd]
    }

    function View(): Table
      reads this, set fd | fd in entries :: entries[fd]
    {
      map fd | fd in entries :: entries[fd].View()
    }

    /** No two descriptors share an entry. */
    ghost predicate Valid()
      reads this
    {
      forall fd, fd' :: fd in entries && fd' in entries && fd != fd' ==> entries[fd] != entries[fd']
    }

    constructor ()
      ensures Valid() && fresh(Owned())
      ensures View() == INITIAL
    {
      entries := map[];
      new;
      InsertIntern(0, "stdin", false);
      InsertIntern(1, "stdout", false);
      InsertIntern(2, "stderr", false);
      SameMap(View(), INITIAL);
    }

    constructor Empty()
      ensures Valid() && entries == map[] && View() == map[]
    {
      entries := map[];
    }

    /** Entries that are not new are where they were. */
    twostate predicate OnlyNewEntries()
      reads this
    {
      forall fd :: fd in entries ==> (fd in old(entries) && entries[fd] == old(entries)[fd]) || fresh(entries[fd])
    }

    method InsertIntern(fd: int, filename: CString, cloexec: bool)
      requires Valid()
      modifies this
      ensures Valid() && OnlyNewEntries()
      ensures View() == old(View())[fd := Entry(filename, cloexec)]
    {
      ghost var before := View();
      var entry := new FdEntry(filename, cloexec);
      entries := entries[fd := entry];
      SameMap(View(), before[fd := Entry(filename, cloexec)]);
    }

    method Insert(fd: int, filename: CString, cloexec: bool)
      requires Valid()
      modifies this
      ensures Valid() && OnlyNewEntries()
      ensures View() == Edited(old(View()), Put(fd, filename, cloexec))
    {
      InsertIntern(fd, filename, cloexec);
    }

    method InsertDup(orig: int, dup: int, cloexec: bool, slave: bool)
      requires Valid() && Defined(View(), Dup(orig, dup, cloexec, slave))
      requires slave ==> |View()[orig].filename| < FILENAME_BUFF_SIZE
      modifies this
      ensures Valid() && OnlyNewEntries()
      ensures View() == Edited(old(View()), Dup(orig, dup, cloexec, slave))
    {
      var entry := entries[orig];
      if slave {
        var filename := MakeSlaveName(entry.filename);
        InsertIntern(dup, filename, cloexec);
      } else {
        InsertIntern(dup, entry.filename, cloexec);
      }
    }

    method SetCloexec(fd: int, cloexec: bool)
      requires Valid() && Defined(View(), SetFlag(fd, cloexec))
      modifies Owned()
      ensures Valid() && OnlyNewEntries()
      ensures View() == Edited(old(View()), SetFlag(fd, cloexec))
    {
      ghost var before := View();
      var entry := entries[fd];
      entry.cloexec := cloexec;
      SameMap(View(), before[fd := before[fd].(cloexec := cloexec)]);
    }

    method Remove(fd: int) returns (found: bool)
      requires Valid()
      modifies this
      ensures Valid() && OnlyNewEntries()
      ensures found == (fd in old(View()))
      ensures View() == Edited(old(View()), Drop(fd))
    {
      ghost var before := View();
      found := fd in entries;
      entries := entries - {fd};
      SameMap(View(), before - {fd});
    }

    /** Visits the entries in any order and removes through the iterator. */
    method RemoveCloexec()
      requires Valid()
      modifies this
      ensures Valid() && OnlyNewEntries()
      ensures View() == Edited(old(View()), Strip)
    {
      ghost var before := View();
      var todo := entries.Keys;
      while todo != {}
        invariant todo <= entries.Keys <= old(entries).Keys
        invariant forall fd :: fd in entries ==> entries[fd] == old(entries)[fd]
        invariant forall fd :: fd in old(entries) && fd !in todo ==> (fd in entries <==> !old(entries)[fd].cloexec)
        decreases todo
      {
        var fd := NextKey(todo);
        if entries[fd].cloexec {
          entries := entries - {fd};
        }
        todo := todo - {fd};
      }
      SameMap(View(), Stripped(before));
    }

    /** Copies entry by entry, in any order, into a table with entries of its own. */
    method DeepCopy() returns (copy: FdTable)
      requires Valid()
      ensures fresh(copy) && fresh(copy.Owned()) && copy.Valid()
      ensures copy.View() == View()
    {
      copy := new FdTable.Empty();
      ghost var all := View();
      var todo := entries.Keys;
      while todo != {}
        invariant fresh(copy) && copy.Valid()
        invariant forall fd :: fd in copy.entries ==> fresh(copy.entries[fd])
        invariant todo <= entries.Keys
        invariant entries == old(entries) && View() == all
        invariant copy.View() == all - todo
        decreases todo
      {
        var fd := NextKey(todo);
        var entry := entries[fd];
        copy.InsertIntern(fd, entry.filename, entry.cloexec);
        SameMap(all - (todo - {fd}), (all - todo)[fd := all[fd]]);
        todo := todo - {fd};
      }
      SameMap(all - todo, all);
    }

    function Lookup(fd: int): (r: Option<CString>)
      reads this, set fd | fd in entries :: entries[fd]
      ensures r.Some? <==> fd in View()
      ensures r.Some? ==> r.value == View()[fd].filename
    {
      if fd in entries then Some(entries[fd].filename) else None
    }
  }
}
