/** Per-file statistics: the records, the values the increments and merges are
    specified by, and the table that is updated in place. */
module FileStats {
  import opened HashIter
  import opened Words

  const MIN_NS_INITIAL: U64 := 9_999_999_999_999
  const MIN_BPS_INITIAL := Finite(9_999_999_999_999.0)
  const NULL_NAME := "NULL"

  /** A transfer rate in bytes per second. A call that took zero nanoseconds
      has an infinite rate, as in IEEE arithmetic; there is no rounding. */
  datatype Rate = Finite(value: real) | Infinite

  predicate Below(a: Rate, b: Rate) {
    a.Finite? && (b.Infinite? || a.value < b.value)
  }

  function RateOf(timeNs: U64, bytes: int): Rate {
    if timeNs == 0 then Infinite
    else Finite(bytes as real / (timeNs as real / 1_000_000_000.0))
  }

  datatype OpenClose = OpenClose(count: U64, totalNs: U64, minNs: U64, maxNs: U64)

  /** A histogram slot: the size stored as the key when the slot was made, and
      how many calls fell into the slot. */
  datatype Block = Block(size: S64, count: U64)

  /** The histogram, indexed by what its hash table compares of a size. */
  type Blocks = map<int, Block>

  datatype ReadWrite = ReadWrite(totalB: U64, totalNs: U64, minBps: Rate, maxBps: Rate, blocks: Blocks)

  datatype FileStat = FileStat(open: OpenClose, close: OpenClose, read: ReadWrite, write: ReadWrite)

  type FileTable = map<string, FileStat>

  /** One call that is charged to a file. */
  datatype Op =
    | Opened(ns: U64)
    | Closed(ns: U64)
    | Read(ns: U64, bytes: S64)
    | Written(ns: U64, bytes: S64)

  datatype Charge = Charge(name: string, op: Op)

  const INIT_OPEN_CLOSE := OpenClose(0, 0, MIN_NS_INITIAL, 0)
  const INIT_READ_WRITE := ReadWrite(0, 0, MIN_BPS_INITIAL, Finite(0.0), map[])
  const INIT_STAT := FileStat(INIT_OPEN_CLOSE, INIT_OPEN_CLOSE, INIT_READ_WRITE, INIT_READ_WRITE)
  const FRESH: FileTable := map[NULL_NAME := INIT_STAT]

  // ---- what one more call does to a record ----

  function Min(a: U64, b: U64): U64 { if b < a then b else a }

  function Max(a: U64, b: U64): U64 { if a < b then b else a }

  function MinRate(a: Rate, b: Rate): Rate { if Below(b, a) then b else a }

  function MaxRate(a: Rate, b: Rate): Rate { if Below(a, b) then b else a }

  function Timed(s: OpenClose, ns: U64): OpenClose {
    OpenClose(Add64(s.count, 1), Add64(s.totalNs, ns), Min(s.minNs, ns), Max(s.maxNs, ns))
  }

  function Bumped(blocks: Blocks, bytes: S64): Blocks {
    var k := Low32(bytes);
    blocks[k := if k in blocks then Block(blocks[k].size, Add64(blocks[k].count, 1)) else Block(bytes, 1)]
  }

  function Moved(s: ReadWrite, ns: U64, bytes: S64): ReadWrite {
    var time := Add64(s.totalNs, ns);
    var blocks := Bumped(s.blocks, bytes);
    if bytes > 0 then
      var bps := RateOf(ns, bytes);
      ReadWrite(Add64(s.totalB, bytes), time, MinRate(s.minBps, bps), MaxRate(s.maxBps, bps), blocks)
    else
      ReadWrite(s.totalB, time, s.minBps, s.maxBps, blocks)
  }

  function Updated(s: FileStat, op: Op): FileStat {
    match op
    case Opened(ns) => s.(open := Timed(s.open, ns))
    case Closed(ns) => s.(close := Timed(s.close, ns))
    case Read(ns, bytes) => s.(read := Moved(s.read, ns, bytes))
    case Written(ns, bytes) => s.(write := Moved(s.write, ns, bytes))
  }

  function StatOf(t: FileTable, name: string): FileStat {
    if name in t then t[name] else INIT_STAT
  }

  function Charged(t: FileTable, c: Charge): FileTable {
    t[c.name := Updated(StatOf(t, c.name), c.op)]
  }

  /** The table a sequence of charges builds from a freshly created one. */
  function TableOf(cs: seq<Charge>): FileTable {
    if cs == [] then FRESH
    else Charged(TableOf(cs[..|cs| - 1]), cs[|cs| - 1])
  }

  // ---- what merging two records gives ----

  function CombinedOpenClose(a: OpenClose, b: OpenClose): OpenClose {
    OpenClose(Add64(a.count, b.count), Add64(a.totalNs, b.totalNs), Min(a.minNs, b.minNs), Max(a.maxNs, b.maxNs))
  }

  function CombinedBlocks(a: Blocks, b: Blocks): Blocks {
    map k | k in a.Keys + b.Keys ::
      if k !in b then a[k]
      else if k in a then Block(a[k].size, Add64(a[k].count, b[k].count))
      else b[k]
  }

  function CombinedReadWrite(a: ReadWrite, b: ReadWrite): ReadWrite {
    ReadWrite(Add64(a.totalB, b.totalB), Add64(a.totalNs, b.totalNs),
              MinRate(a.minBps, b.minBps), MaxRate(a.maxBps, b.maxBps),
              CombinedBlocks(a.blocks, b.blocks))
  }

  function CombinedStat(a: FileStat, b: FileStat): FileStat {
    FileStat(CombinedOpenClose(a.open, b.open), CombinedOpenClose(a.close, b.close),
             CombinedReadWrite(a.read, b.read), CombinedReadWrite(a.write, b.write))
  }

  function Combined(a: FileTable, b: FileTable): FileTable {
    map n | n in a.Keys + b.Keys ::
      if n in b then CombinedStat(StatOf(a, n), b[n]) else a[n]
  }

  // ---- what holds of every record the code makes ----

  predicate OpenCloseInRange(s: OpenClose) {
    s.minNs <= MIN_NS_INITIAL
  }

  /** Slots are found again by the low 32 bits of the size they store. */
  predicate SlotsIndexed(b: Blocks) {
    forall k :: k in b ==> Low32(b[k].size) == k
  }

  predicate ReadWriteInRange(s: ReadWrite) {
    && !Below(MIN_BPS_INITIAL, s.minBps)
    && !Below(s.maxBps, Finite(0.0))
    && SlotsIndexed(s.blocks)
  }

  predicate StatInRange(s: FileStat) {
    && OpenCloseInRange(s.open)
    && OpenCloseInRange(s.close)
    && ReadWriteInRange(s.read)
    && ReadWriteInRange(s.write)
  }

  /** The entry for unresolved names is there, no minimum exceeds its initial value,
      no maximum is below zero, and histograms are indexed consistently. */
  predicate WellFormed(t: FileTable) {
    && NULL_NAME in t
    && forall n :: n in t ==> StatInRange(t[n])
  }

  lemma UpdatedInRange(s: FileStat, op: Op)
    requires StatInRange(s)
    ensures StatInRange(Updated(s, op))
  {}

  lemma ChargedWellFormed(t: FileTable, c: Charge)
    requires WellFormed(t)
    ensures WellFormed(Charged(t, c))
  {
    UpdatedInRange(StatOf(t, c.name), c.op);
  }

  lemma {:induction false} TableOfWellFormed(cs: seq<Charge>)
    ensures WellFormed(TableOf(cs))
  {
    if cs != [] {
      TableOfWellFormed(cs[..|cs| - 1]);
      ChargedWellFormed(TableOf(cs[..|cs| - 1]), cs[|cs| - 1]);
    }
  }

  lemma CombinedInRange(a: FileStat, b: FileStat)
    requires StatInRange(a) && StatInRange(b)
    ensures StatInRange(CombinedStat(a, b))
  {}

  lemma CombinedWellFormed(a: FileTable, b: FileTable)
    requires WellFormed(a) && WellFormed(b)
    ensures WellFormed(Combined(a, b))
  {
    forall n | n in b ensures StatInRange(CombinedStat(StatOf(a, n), b[n])) {
      CombinedInRange(StatOf(a, n), b[n]);
    }
  }

  // ---- the code ----

  method IncrRw(stat: ReadWrite, timeNs: U64, bytes: S64) returns (r: ReadWrite)
    ensures r == Moved(stat, timeNs, bytes)
  {
    r := stat.(totalNs := Add64(stat.totalNs, timeNs));
    if bytes > 0 {
      r := r.(totalB := Add64(r.totalB, bytes));
      var bps := RateOf(timeNs, bytes);
      if Below(bps, r.minBps) {
        r := r.(minBps := bps);
      }
      if Below(r.maxBps, bps) {
        r := r.(maxBps := bps);
      }
    }
    var slot := Low32(bytes);
    if slot !in r.blocks {
      r := r.(blocks := r.blocks[slot := Block(bytes, 0)]);
    }
    var count := r.blocks[slot];
    r := r.(blocks := r.blocks[slot := count.(count := Add64(count.count, 1))]);
  }

  method IncrTimed(stat: OpenClose, timeNs: U64) returns (r: OpenClose)
    ensures r == Timed(stat, timeNs)
  {
    r := stat.(count := Add64(stat.count, 1));
    r := r.(totalNs := Add64(r.totalNs, timeNs));
    if r.minNs > timeNs {
      r := r.(minNs := timeNs);
    }
    if r.maxNs < timeNs {
      r := r.(maxNs := timeNs);
    }
  }

  method MergeOpenClose(stat1: OpenClose, stat2: OpenClose) returns (r: OpenClose)
    ensures r == CombinedOpenClose(stat1, stat2)
  {
    r := stat1.(count := Add64(stat1.count, stat2.count));
    if r.minNs > stat2.minNs {
      r := r.(minNs := stat2.minNs);
    }
    if r.maxNs < stat2.maxNs {
      r := r.(maxNs := stat2.maxNs);
    }
    r := r.(totalNs := Add64(r.totalNs, stat2.totalNs));
  }

  method MergeReadWrite(stat1: ReadWrite, stat2: ReadWrite) returns (r: ReadWrite)
    requires SlotsIndexed(stat2.blocks)
    ensures r == CombinedReadWrite(stat1, stat2)
  {
    r := stat1.(totalB := Add64(stat1.totalB, stat2.totalB));
    r := r.(totalNs := Add64(r.totalNs, stat2.totalNs));
    if Below(stat2.minBps, r.minBps) {
      r := r.(minBps := stat2.minBps);
    }
    if Below(r.maxBps, stat2.maxBps) {
      r := r.(maxBps := stat2.maxBps);
    }
    var blocks := MergeBlocks(r.blocks, stat2.blocks);
    r := r.(blocks := blocks);
  }

  lemma CombinedBlocksStep(a: Blocks, b: Blocks, todo: set<int>, k: int)
    requires k in todo && todo <= b.Keys
    ensures var before := CombinedBlocks(a, b - todo);
            CombinedBlocks(a, b - (todo - {k}))
            == before[k := if k in a then Block(a[k].size, Add64(a[k].count, b[k].count)) else b[k]]
    ensures k in CombinedBlocks(a, b - todo) <==> k in a
    ensures k in a ==> CombinedBlocks(a, b - todo)[k] == a[k]
  {
    assert (b - (todo - {k})).Keys == (b - todo).Keys + {k};
  }

  /** Visits the slots of the second histogram in any order. */
  method MergeBlocks(blocks1: Blocks, blocks2: Blocks) returns (r: Blocks)
    requires SlotsIndexed(blocks2)
    ensures r == CombinedBlocks(blocks1, blocks2)
  {
    r := blocks1;
    var todo := blocks2.Keys;
    assert blocks2 - todo == map[];
    while todo != {}
      invariant todo <= blocks2.Keys
      invariant r == CombinedBlocks(blocks1, blocks2 - todo)
      decreases todo
    {
      var key := NextKey(todo);
      var entry := blocks2[key];
      var slot := Low32(entry.size);
      if slot !in r {
        r := r[slot := Block(entry.size, 0)];
      }
      r := r[slot := r[slot].(count := Add64(r[slot].count, entry.count))];
      CombinedBlocksStep(blocks1, blocks2, todo, key);
      todo := todo - {key};
    }
    assert blocks2 - todo == blocks2;
  }

  lemma CombinedStep(a: FileTable, b: FileTable, todo: set<string>, n: string)
    requires n in todo && todo <= b.Keys
    ensures var before := Combined(a, b - todo);
            Combined(a, b - (todo - {n})) == before[n := CombinedStat(StatOf(a, n), b[n])]
    ensures StatOf(Combined(a, b - todo), n) == StatOf(a, n)
    ensures a == b ==> n in Combined(a, b - todo)
  {
    assert (b - (todo - {n})).Keys == (b - todo).Keys + {n};
  }

  /** The statistics of one file. */
  class FileRecord {
    var open: OpenClose
    var close: OpenClose
    var read: ReadWrite
    var write: ReadWrite

    function View(): FileStat
      reads this
    {
      FileStat(open, close, read, write)
    }

    constructor ()
      ensures View() == INIT_STAT
    {
      open, close, read, write := INIT_OPEN_CLOSE, INIT_OPEN_CLOSE, INIT_READ_WRITE, INIT_READ_WRITE;
    }

    method Merge(stat2: FileRecord)
      requires StatInRange(stat2.View())
      modifies this
      ensures View() == CombinedStat(old(View()), old(stat2.View()))
    {
      open := MergeOpenClose(open, stat2.open);
      close := MergeOpenClose(close, stat2.close);
      read := MergeReadWrite(read, stat2.read);
      write := MergeReadWrite(write, stat2.write);
    }
  }

  class FileStatTable {
    var records: map<string, FileRecord>

    ghost function Owned(): set<FileRecord>
      reads this
    {
      set n | n in records :: records[n]
    }

    function View(): FileTable
      reads this, set n | n in records :: records[n]
    {
      map n | n in records :: records[n].View()
    }

    lemma Shows()
      ensures View().Keys == records.Keys
      ensures forall n :: n in records ==> View()[n] == records[n].View()
    {}

    /** No two files share a record. */
    ghost predicate Separate()
      reads this
    {
      forall m, n :: m in records && n in records && m != n ==> records[m] != records[n]
    }

    /** The two tables have no record in common. */
    ghost predicate ApartFrom(other: FileStatTable)
      reads this, other
    {
      forall m, n :: m in records && n in other.records ==> records[m] != other.records[n]
    }

    ghost predicate Valid()
      reads this, Owned()
    {
      Separate() && WellFormed(View())
    }

    constructor ()
      ensures Valid() && View() == FRESH
      ensures forall n :: n in records ==> fresh(records[n])
    {
      records := map[];
      new;
      var unresolved := new FileRecord();
      records := records[NULL_NAME := unresolved];
      assert View() == FRESH;
    }

    /** Records of files that are not new are where they were. */
    twostate predicate OnlyNewRecords()
      reads this
    {
      forall n :: n in records ==> (n in old(records) && records[n] == old(records)[n]) || fresh(records[n])
    }

    /** The record of a file, made first if there is none. */
    method GetSafe(name: string) returns (tmp: FileRecord)
      requires Separate()
      modifies this
      ensures Separate() && OnlyNewRecords()
      ensures records == old(records)[name := tmp]
      ensures if name in old(records) then tmp == old(records)[name] else fresh(tmp)
      ensures View() == old(View())[name := StatOf(old(View()), name)]
    {
      if name !in records {
        var made := new FileRecord();
        records := records[name := made];
      }
      tmp := records[name];
    }

    method IncrOpen(name: string, timeNs: U64)
      requires Valid()
      modifies this, Owned()
      ensures Valid() && OnlyNewRecords()
      ensures View() == Charged(old(View()), Charge(name, Opened(timeNs)))
    {
      hide Timed, WellFormed, Charged, StatOf;
      ghost var before := View();
      var tmp := GetSafe(name);
      ghost var found := View();
      assert tmp.View() == found[name];
      tmp.open := IncrTimed(tmp.open, timeNs);
      assert View() == found[name := tmp.View()];
      ChargedInPlace(before, found, name, Opened(timeNs));
    }

    method IncrClose(name: string, timeNs: U64)
      requires Valid()
      modifies this, Owned()
      ensures Valid() && OnlyNewRecords()
      ensures View() == Charged(old(View()), Charge(name, Closed(timeNs)))
    {
      hide Timed, WellFormed, Charged, StatOf;
      ghost var before := View();
      var tmp := GetSafe(name);
      ghost var found := View();
      assert tmp.View() == found[name];
      tmp.close := IncrTimed(tmp.close, timeNs);
      assert View() == found[name := tmp.View()];
      ChargedInPlace(before, found, name, Closed(timeNs));
    }

    method IncrRead(name: string, timeNs: U64, bytes: S64)
      requires Valid()
      modifies this, Owned()
      ensures Valid() && OnlyNewRecords()
      ensures View() == Charged(old(View()), Charge(name, Read(timeNs, bytes)))
    {
      hide Moved, WellFormed, Charged, StatOf;
      ghost var before := View();
      var tmp := GetSafe(name);
      ghost var found := View();
      assert tmp.View() == found[name];
      tmp.read := IncrRw(tmp.read, timeNs, bytes);
      assert View() == found[name := tmp.View()];
      ChargedInPlace(before, found, name, Read(timeNs, bytes));
    }

    method IncrWrite(name: string, timeNs: U64, bytes: S64)
      requires Valid()
      modifies this, Owned()
      ensures Valid() && OnlyNewRecords()
      ensures View() == Charged(old(View()), Charge(name, Written(timeNs, bytes)))
    {
      hide Moved, WellFormed, Charged, StatOf;
      ghost var before := View();
      var tmp := GetSafe(name);
      ghost var found := View();
      assert tmp.View() == found[name];
      tmp.write := IncrRw(tmp.write, timeNs, bytes);
      assert View() == found[name := tmp.View()];
      ChargedInPlace(before, found, name, Written(timeNs, bytes));
    }

    /** Visits the files of the other table in any order. */
    method Merge(other: FileStatTable)
      requires Valid() && other.Valid() && ApartFrom(other)
      modifies this, Owned()
      ensures Valid() && OnlyNewRecords()
      ensures View() == Combined(old(View()), old(other.View()))
    {
      hide WellFormed, StatInRange, CombinedStat, Combined, StatOf, FileRecord.View, View;
      other.Shows();
      ghost var into, from := View(), other.View();
      CombinedWellFormed(into, from);
      NothingCombined(into);
      var todo := other.records.Keys;
      assert from - todo == map[];
      while todo != {}
        invariant todo <= other.records.Keys
        invariant other.records == old(other.records) && other.View() == from
        invariant Separate() && OnlyNewRecords() && ApartFrom(other)
        invariant View() == Combined(into, from - todo)
        decreases todo
      {
        var file := NextKey(todo);
        CombinedStep(into, from, todo, file);
        InRange(from, file);
        other.Shows();
        MergeFile(file, other.records[file]);
        todo := todo - {file};
      }
      assert from - todo == from;
    }

    /** Merges one record of another table into this one. */
    method MergeFile(file: string, stat2: FileRecord)
      requires Separate() && StatInRange(stat2.View()) && forall n :: n in records ==> records[n] != stat2
      modifies this, Owned()
      ensures Separate() && OnlyNewRecords()
      ensures View() == old(View())[file := CombinedStat(StatOf(old(View()), file), stat2.View())]
    {
      hide StatInRange, CombinedStat, StatOf, FileRecord.View, View;
      ghost var before, from := View(), stat2.View();
      var stat1 := GetSafe(file);
      ghost var found := View();
      Shows();
      assert stat2.View() == from;
      stat1.Merge(stat2);
      Shows();
      assert View() == found[file := stat1.View()];
      ReplacedTwice(before, file, StatOf(before, file), CombinedStat(StatOf(before, file), from));
    }
  }

  lemma ReplacedTwice(t: FileTable, name: string, s: FileStat, s': FileStat)
    ensures t[name := s][name := s'] == t[name := s']
  {}

  lemma InRange(t: FileTable, name: string)
    requires WellFormed(t) && name in t
    ensures StatInRange(t[name])
  {}

  lemma NothingCombined(t: FileTable)
    ensures Combined(t, map[]) == t
  {
    assert Combined(t, map[]).Keys == t.Keys;
  }

  /** Finding a record and then updating it charges it. */
  lemma ChargedInPlace(before: FileTable, found: FileTable, name: string, op: Op)
    requires WellFormed(before) && found == before[name := StatOf(before, name)]
    ensures WellFormed(Charged(before, Charge(name, op)))
    ensures found[name := Updated(found[name], op)] == Charged(before, Charge(name, op))
  {
    hide Updated, WellFormed;
    ChargedWellFormed(before, Charge(name, op));
  }
}
