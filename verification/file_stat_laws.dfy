/** Merging file statistics is a homomorphism from sequences of charges to tables,
    and the order of the charges shows only in the sizes stored in histogram slots. */
module FileStatLaws {
  import opened Arrangements
  import opened FileStats
  import opened Words

  // ---- merging and charging commute ----

  lemma BumpedCombined(a: Blocks, b: Blocks, bytes: S64)
    ensures CombinedBlocks(a, Bumped(b, bytes)) == Bumped(CombinedBlocks(a, b), bytes)
  {
    var k := Low32(bytes);
    if k in a && k in b {
      Add64Associates(a[k].count, b[k].count, 1);
    }
  }

  lemma MovedCombined(a: ReadWrite, b: ReadWrite, ns: U64, bytes: S64)
    ensures CombinedReadWrite(a, Moved(b, ns, bytes)) == Moved(CombinedReadWrite(a, b), ns, bytes)
  {
    BumpedCombined(a.blocks, b.blocks, bytes);
    Add64Associates(a.totalNs, b.totalNs, ns);
    Add64Associates(a.totalB, b.totalB, bytes);
  }

  lemma TimedCombined(a: OpenClose, b: OpenClose, ns: U64)
    ensures CombinedOpenClose(a, Timed(b, ns)) == Timed(CombinedOpenClose(a, b), ns)
  {
    Add64Associates(a.count, b.count, 1);
    Add64Associates(a.totalNs, b.totalNs, ns);
  }

  lemma UpdatedCombined(a: FileStat, b: FileStat, op: Op)
    ensures CombinedStat(a, Updated(b, op)) == Updated(CombinedStat(a, b), op)
  {
    match op
    case Opened(ns) => TimedCombined(a.open, b.open, ns);
    case Closed(ns) => TimedCombined(a.close, b.close, ns);
    case Read(ns, bytes) => MovedCombined(a.read, b.read, ns, bytes);
    case Written(ns, bytes) => MovedCombined(a.write, b.write, ns, bytes);
  }

  lemma InitInRange()
    ensures StatInRange(INIT_STAT)
  {}

  /** A freshly made record is the unit of merging, sentinels included. */
  lemma InitIsUnit(s: FileStat)
    requires StatInRange(s)
    ensures CombinedStat(s, INIT_STAT) == s
    ensures CombinedStat(INIT_STAT, s) == s
  {
    assert CombinedBlocks(s.read.blocks, map[]) == s.read.blocks;
    assert CombinedBlocks(map[], s.read.blocks) == s.read.blocks;
    assert CombinedBlocks(s.write.blocks, map[]) == s.write.blocks;
    assert CombinedBlocks(map[], s.write.blocks) == s.write.blocks;
  }

  lemma ChargedCombined(a: FileTable, b: FileTable, c: Charge)
    requires WellFormed(a) && WellFormed(b)
    ensures Combined(a, Charged(b, c)) == Charged(Combined(a, b), c)
  {
    var sa := StatOf(a, c.name);
    UpdatedCombined(sa, StatOf(b, c.name), c.op);
    InitIsUnit(sa);
  }

  /** The table of a freshly created collector is the unit of merging. */
  lemma FreshIsUnit(t: FileTable)
    requires WellFormed(t)
    ensures Combined(t, FRESH) == t
    ensures Combined(FRESH, t) == t
  {
    hide CombinedStat, StatInRange;
    forall n | n in t
      ensures CombinedStat(t[n], INIT_STAT) == t[n] && CombinedStat(INIT_STAT, t[n]) == t[n]
    {
      InitIsUnit(t[n]);
    }
    InitInRange();
    InitIsUnit(INIT_STAT);
  }

  /** Merging two collected tables gives the table of the concatenated calls. */
  lemma {:induction false} MergeIsHomomorphism(xs: seq<Charge>, ys: seq<Charge>)
    ensures Combined(TableOf(xs), TableOf(ys)) == TableOf(xs + ys)
  {
    TableOfWellFormed(xs);
    if ys == [] {
      FreshIsUnit(TableOf(xs));
      assert xs + ys == xs;
    } else {
      var init, last := ys[..|ys| - 1], ys[|ys| - 1];
      TableOfWellFormed(init);
      MergeIsHomomorphism(xs, init);
      ChargedCombined(TableOf(xs), TableOf(init), last);
      assert (xs + ys)[..|xs + ys| - 1] == xs + init;
    }
  }

  lemma CombinedStatAssociates(a: FileStat, b: FileStat, c: FileStat)
    ensures CombinedStat(a, CombinedStat(b, c)) == CombinedStat(CombinedStat(a, b), c)
  {
    OpenCloseAssociates(a.open, b.open, c.open);
    OpenCloseAssociates(a.close, b.close, c.close);
    ReadWriteAssociates(a.read, b.read, c.read);
    ReadWriteAssociates(a.write, b.write, c.write);
  }

  lemma OpenCloseAssociates(a: OpenClose, b: OpenClose, c: OpenClose)
    ensures CombinedOpenClose(a, CombinedOpenClose(b, c)) == CombinedOpenClose(CombinedOpenClose(a, b), c)
  {
    Add64Associates(a.count, b.count, c.count);
    Add64Associates(a.totalNs, b.totalNs, c.totalNs);
  }

  lemma ReadWriteAssociates(a: ReadWrite, b: ReadWrite, c: ReadWrite)
    ensures CombinedReadWrite(a, CombinedReadWrite(b, c)) == CombinedReadWrite(CombinedReadWrite(a, b), c)
  {
    Add64Associates(a.totalB, b.totalB, c.totalB);
    Add64Associates(a.totalNs, b.totalNs, c.totalNs);
    BlocksAssociate(a.blocks, b.blocks, c.blocks);
  }

  lemma BlocksAssociate(a: Blocks, b: Blocks, c: Blocks)
    ensures CombinedBlocks(a, CombinedBlocks(b, c)) == CombinedBlocks(CombinedBlocks(a, b), c)
  {
    forall k | k in a && k in b && k in c
      ensures Add64(a[k].count, Add64(b[k].count, c[k].count)) == Add64(Add64(a[k].count, b[k].count), c[k].count)
    {
      Add64Associates(a[k].count, b[k].count, c[k].count);
    }
  }

  /** Merging is associative on every table the collectors can hold. */
  lemma MergeAssociates(a: FileTable, b: FileTable, c: FileTable)
    requires WellFormed(a) && WellFormed(b) && WellFormed(c)
    ensures Combined(a, Combined(b, c)) == Combined(Combined(a, b), c)
  {
    hide CombinedStat, StatInRange;
    InitInRange();
    var left, right := Combined(a, Combined(b, c)), Combined(Combined(a, b), c);
    assert left.Keys == right.Keys;
    forall n | n in left ensures left[n] == right[n] {
      var sa, sb, sc := StatOf(a, n), StatOf(b, n), StatOf(c, n);
      CombinedStatAssociates(sa, sb, sc);
      InitIsUnit(sa);
      InitIsUnit(sb);
      InitIsUnit(sc);
    }
  }

  // ---- how far merging commutes ----

  /** Forgets which of the sizes with equal low 32 bits a slot stores. */
  function CanonBlocks(b: Blocks): Blocks
    requires SlotsIndexed(b)
  {
    map k | k in b :: Block(k, b[k].count)
  }

  function CanonStat(s: FileStat): FileStat
    requires StatInRange(s)
  {
    s.(read := s.read.(blocks := CanonBlocks(s.read.blocks)),
       write := s.write.(blocks := CanonBlocks(s.write.blocks)))
  }

  /** The statistics with every stored size replaced by its low 32 bits. */
  function Canon(t: FileTable): FileTable
    requires WellFormed(t)
  {
    map n | n in t :: CanonStat(t[n])
  }

  lemma CanonStatCombined(a: FileStat, b: FileStat)
    requires StatInRange(a) && StatInRange(b)
    ensures StatInRange(CombinedStat(a, b)) && StatInRange(CanonStat(a)) && StatInRange(CanonStat(b))
    ensures CanonStat(CombinedStat(a, b)) == CombinedStat(CanonStat(a), CanonStat(b))
    ensures CombinedStat(CanonStat(a), CanonStat(b)) == CombinedStat(CanonStat(b), CanonStat(a))
  {
    CombinedInRange(a, b);
    CanonInRange(a);
    CanonInRange(b);
    CanonBlocksCombined(a.read.blocks, b.read.blocks);
    CanonBlocksCombined(a.write.blocks, b.write.blocks);
    CanonBlocksCommute(a.read.blocks, b.read.blocks);
    CanonBlocksCommute(a.write.blocks, b.write.blocks);
  }

  lemma SlotsAreCanonical(b: Blocks)
    requires SlotsIndexed(b)
    ensures forall k :: k in b ==> Low32(k) == k
    ensures SlotsIndexed(CanonBlocks(b))
  {
    forall k | k in b ensures Low32(k) == k {
      Low32Idempotent(b[k].size);
    }
  }

  lemma CanonBlocksCombined(a: Blocks, b: Blocks)
    requires SlotsIndexed(a) && SlotsIndexed(b)
    ensures SlotsIndexed(CombinedBlocks(a, b))
    ensures CanonBlocks(CombinedBlocks(a, b)) == CombinedBlocks(CanonBlocks(a), CanonBlocks(b))
  {
    SlotsAreCanonical(a);
    SlotsAreCanonical(b);
    hide Low32;
  }

  lemma CanonBlocksCommute(a: Blocks, b: Blocks)
    requires SlotsIndexed(a) && SlotsIndexed(b)
    ensures CombinedBlocks(CanonBlocks(a), CanonBlocks(b)) == CombinedBlocks(CanonBlocks(b), CanonBlocks(a))
  {
    SlotsAgreeExactly(CanonBlocks(a), CanonBlocks(b));
  }

  lemma CanonInRange(s: FileStat)
    requires StatInRange(s)
    ensures StatInRange(CanonStat(s))
    ensures s == INIT_STAT ==> CanonStat(s) == INIT_STAT
  {
    SlotsAreCanonical(s.read.blocks);
    SlotsAreCanonical(s.write.blocks);
    if s == INIT_STAT {
      assert CanonBlocks(s.read.blocks) == map[];
    }
  }

  lemma CanonWellFormed(t: FileTable)
    requires WellFormed(t)
    ensures WellFormed(Canon(t))
    ensures forall n :: StatInRange(StatOf(t, n)) && StatOf(Canon(t), n) == CanonStat(StatOf(t, n))
  {
    hide StatInRange, CanonStat;
    InitInRange();
    CanonInRange(INIT_STAT);
    forall n | n in t ensures StatInRange(CanonStat(t[n])) {
      CanonInRange(t[n]);
    }
  }

  /** A merged table holds, for every file, the merge of what the two tables hold. */
  lemma CombinedPointwise(a: FileTable, b: FileTable, n: string)
    requires WellFormed(a) && WellFormed(b)
    ensures StatOf(Combined(a, b), n) == CombinedStat(StatOf(a, n), StatOf(b, n))
  {
    hide CombinedStat, StatInRange;
    InitInRange();
    InitIsUnit(StatOf(a, n));
  }

  lemma SameTable(s: FileTable, t: FileTable)
    requires s.Keys == t.Keys
    requires forall n :: n in s ==> StatOf(s, n) == StatOf(t, n)
    ensures s == t
  {
    assert forall n :: n in s ==> s[n] == StatOf(s, n) && t[n] == StatOf(t, n);
  }

  /** On canonical statistics merging is commutative. */
  lemma CanonCombined(a: FileTable, b: FileTable)
    requires WellFormed(a) && WellFormed(b)
    ensures WellFormed(Combined(a, b)) && WellFormed(Combined(b, a))
    ensures WellFormed(Canon(a)) && WellFormed(Canon(b))
    ensures Canon(Combined(a, b)) == Combined(Canon(a), Canon(b))
    ensures Canon(Combined(a, b)) == Canon(Combined(b, a))
  {
    hide CombinedStat, StatInRange, CanonStat;
    CombinedWellFormed(a, b);
    CombinedWellFormed(b, a);
    CanonWellFormed(a);
    CanonWellFormed(b);
    CanonWellFormed(Combined(a, b));
    CanonWellFormed(Combined(b, a));
    forall n
      ensures StatOf(Canon(Combined(a, b)), n) == StatOf(Combined(Canon(a), Canon(b)), n)
      ensures StatOf(Canon(Combined(a, b)), n) == StatOf(Canon(Combined(b, a)), n)
    {
      hide Combined, WellFormed, StatOf, Canon;
      CombinedPointwise(a, b, n);
      CombinedPointwise(b, a, n);
      CombinedPointwise(Canon(a), Canon(b), n);
      CanonStatCombined(StatOf(a, n), StatOf(b, n));
      CanonStatCombined(StatOf(b, n), StatOf(a, n));
    }
    assert Canon(Combined(a, b)).Keys == a.Keys + b.Keys;
    assert Canon(Combined(b, a)).Keys == a.Keys + b.Keys == Combined(Canon(a), Canon(b)).Keys;
    SameTable(Canon(Combined(a, b)), Combined(Canon(a), Canon(b)));
    SameTable(Canon(Combined(a, b)), Canon(Combined(b, a)));
  }

  predicate SlotsAgree(a: Blocks, b: Blocks) {
    forall k :: k in a && k in b ==> a[k].size == b[k].size
  }

  /** Slots that both tables have for a file store the same size in both. */
  predicate StoredSizesAgree(a: FileTable, b: FileTable) {
    forall n :: n in a && n in b ==>
      SlotsAgree(a[n].read.blocks, b[n].read.blocks) && SlotsAgree(a[n].write.blocks, b[n].write.blocks)
  }

  lemma SlotsAgreeExactly(a: Blocks, b: Blocks)
    ensures SlotsAgree(a, b) <==> CombinedBlocks(a, b) == CombinedBlocks(b, a)
  {
    if CombinedBlocks(a, b) == CombinedBlocks(b, a) {
      forall k | k in a && k in b ensures a[k].size == b[k].size {
        assert CombinedBlocks(a, b)[k].size == a[k].size;
        assert CombinedBlocks(b, a)[k].size == b[k].size;
      }
    }
    if SlotsAgree(a, b) {
      var left, right := CombinedBlocks(a, b), CombinedBlocks(b, a);
      assert left.Keys == right.Keys;
      assert forall k :: k in left ==> left[k] == right[k];
    }
  }

  lemma StatsCommuteExactly(a: FileStat, b: FileStat)
    ensures CombinedStat(a, b) == CombinedStat(b, a)
       <==> SlotsAgree(a.read.blocks, b.read.blocks) && SlotsAgree(a.write.blocks, b.write.blocks)
  {
    SlotsAgreeExactly(a.read.blocks, b.read.blocks);
    SlotsAgreeExactly(a.write.blocks, b.write.blocks);
  }

  /** Merging commutes exactly when no two sizes with equal low 32 bits meet. */
  lemma MergeCommutesExactly(a: FileTable, b: FileTable)
    requires WellFormed(a) && WellFormed(b)
    ensures Combined(a, b) == Combined(b, a) <==> StoredSizesAgree(a, b)
  {
    hide CombinedStat, StatInRange;
    InitInRange();
    var left, right := Combined(a, b), Combined(b, a);
    assert left.Keys == right.Keys;
    forall n | n in left
      ensures left[n] == right[n] <==>
        (n in a && n in b ==>
          SlotsAgree(a[n].read.blocks, b[n].read.blocks) && SlotsAgree(a[n].write.blocks, b[n].write.blocks))
    {
      var sa, sb := StatOf(a, n), StatOf(b, n);
      StatsCommuteExactly(sa, sb);
      InitIsUnit(sa);
      InitIsUnit(sb);
    }
  }

  // ---- order independence ----

  /** Charging a call first or last gives the same statistics. */
  lemma CanonFront(xs: seq<Charge>, c: Charge)
    ensures WellFormed(TableOf(xs + [c])) && WellFormed(TableOf([c] + xs))
    ensures Canon(TableOf(xs + [c])) == Canon(TableOf([c] + xs))
  {
    MergeIsHomomorphism(xs, [c]);
    MergeIsHomomorphism([c], xs);
    TableOfWellFormed(xs);
    TableOfWellFormed([c]);
    CanonCombined(TableOf(xs), TableOf([c]));
  }

  lemma CanonAppend(xs: seq<Charge>, xs': seq<Charge>, ys: seq<Charge>, ys': seq<Charge>)
    requires WellFormed(TableOf(xs)) && WellFormed(TableOf(xs'))
    requires WellFormed(TableOf(ys)) && WellFormed(TableOf(ys'))
    requires Canon(TableOf(xs)) == Canon(TableOf(xs'))
    requires Canon(TableOf(ys)) == Canon(TableOf(ys'))
    ensures WellFormed(TableOf(xs + ys)) && WellFormed(TableOf(xs' + ys'))
    ensures Canon(TableOf(xs + ys)) == Canon(TableOf(xs' + ys'))
  {
    MergeIsHomomorphism(xs, ys);
    MergeIsHomomorphism(xs', ys');
    CanonCombined(TableOf(xs), TableOf(ys));
    CanonCombined(TableOf(xs'), TableOf(ys'));
  }

  lemma CanonSwap(before: seq<Charge>, c: Charge, after: seq<Charge>, rest: seq<Charge>)
    requires WellFormed(TableOf(rest)) && WellFormed(TableOf(before + after))
    requires Canon(TableOf(rest)) == Canon(TableOf(before + after))
    ensures WellFormed(TableOf(before + [c] + after)) && WellFormed(TableOf([c] + rest))
    ensures Canon(TableOf(before + [c] + after)) == Canon(TableOf([c] + rest))
  {
    hide WellFormed, TableOf, Canon;
    TableOfWellFormed(after);
    TableOfWellFormed([c]);
    CanonFront(before, c);
    CanonAppend(before + [c], [c] + before, after, after);
    CanonAppend([c], [c], rest, before + after);
    assert [c] + before + after == [c] + (before + after);
  }

  /** The statistics depend on which calls were charged, not on their order. */
  lemma {:induction false} OrderIndependent(xs: seq<Charge>, ys: seq<Charge>)
    requires multiset(xs) == multiset(ys)
    ensures WellFormed(TableOf(xs)) && WellFormed(TableOf(ys))
    ensures Canon(TableOf(xs)) == Canon(TableOf(ys))
    decreases |xs|
  {
    hide WellFormed, TableOf, Canon;
    TableOfWellFormed(xs);
    TableOfWellFormed(ys);
    if xs == [] {
      assert |multiset(ys)| == 0;
    } else {
      var i := FindFirst(xs, ys);
      OrderIndependent(xs[1..], ys[..i] + ys[i + 1..]);
      CanonSwap(ys[..i], xs[0], ys[i + 1..], xs[1..]);
      assert xs == [xs[0]] + xs[1..];
    }
  }
}
