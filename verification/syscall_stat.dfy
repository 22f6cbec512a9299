/** Time spent in syscalls that are not part of the file statistics. */
module SyscallStats {
  import opened Arrangements
  import opened HashIter
  import opened Maps
  import opened Words

  datatype SyscallStat = SyscallStat(count: U64, totalNs: U64)

  type SyscallTable = map<int, SyscallStat>

  /** One completed call of a syscall outside the file statistics. */
  datatype Call = Call(syscall: int, ns: U64)

  const INIT := SyscallStat(0, 0)

  function StatOf(t: SyscallTable, syscall: int): SyscallStat {
    if syscall in t then t[syscall] else INIT
  }

  function CombinedStat(a: SyscallStat, b: SyscallStat): SyscallStat {
    SyscallStat(Add64(a.count, b.count), Add64(a.totalNs, b.totalNs))
  }

  function Counted(t: SyscallTable, c: Call): SyscallTable {
    t[c.syscall := CombinedStat(StatOf(t, c.syscall), SyscallStat(1, c.ns))]
  }

  /** The table a sequence of calls builds from an empty one. */
  function TableOf(cs: seq<Call>): SyscallTable {
    if cs == [] then map[]
    else Counted(TableOf(cs[..|cs| - 1]), cs[|cs| - 1])
  }

  function Combined(a: SyscallTable, b: SyscallTable): SyscallTable {
    map k | k in a.Keys + b.Keys ::
      if k in b then CombinedStat(StatOf(a, k), b[k]) else a[k]
  }

  /** The merge so far with one more syscall. */
  lemma CombinedStep(a: SyscallTable, b: SyscallTable, todo: set<int>, k: int)
    requires k in todo && todo <= b.Keys
    ensures var before := Combined(a, b - todo);
            Combined(a, b - (todo - {k})) == before[k := CombinedStat(StatOf(a, k), b[k])]
    ensures StatOf(Combined(a, b - todo), k) == StatOf(a, k)
  {
    assert (b - (todo - {k})).Keys == (b - todo).Keys + {k};
  }

  lemma NothingCombined(t: SyscallTable)
    ensures Combined(t, map[]) == t
  {
    assert Combined(t, map[]).Keys == t.Keys;
  }

  // ---- the code ----

  class SyscallRecord {
    var count: U64
    var totalNs: U64

    function View(): SyscallStat
      reads this
    {
      SyscallStat(count, totalNs)
    }

    constructor ()
      ensures View() == INIT
    {
      count, totalNs := 0, 0;
    }
  }

  class SyscallStatTable {
    var records: map<int, SyscallRecord>

    ghost function Owned(): set<SyscallRecord>
      reads this
    {
      set k | k in records :: records[k]
    }

    function View(): SyscallTable
      reads this, set k | k in records :: records[k]
    {
      map k | k in records :: records[k].View()
    }

    /** No two syscalls share a record. */
    ghost predicate Valid()
      reads this
    {
      forall j, k :: j in records && k in records && j != k ==> records[j] != records[k]
    }

    /** The two tables are different ones and have no record in common. */
    ghost predicate ApartFrom(other: SyscallStatTable)
      reads this, other
    {
      other != this && forall j, k :: j in records && k in other.records ==> records[j] != other.records[k]
    }

    constructor ()
      ensures Valid() && records == map[] && View() == map[]
    {
      records := map[];
    }

    /** Records of syscalls that are not new are where they were. */
    twostate predicate OnlyNewRecords()
      reads this
    {
      forall k :: k in records ==> (k in old(records) && records[k] == old(records)[k]) || fresh(records[k])
    }

    /** The record of a syscall, made first if there is none. */
    method GetSafe(syscall: int) returns (tmp: SyscallRecord)
      requires Valid()
      modifies this
      ensures Valid() && OnlyNewRecords()
      ensures records == old(records)[syscall := tmp]
      ensures if syscall in old(records) then tmp == old(records)[syscall] else fresh(tmp)
      ensures View() == old(View())[syscall := StatOf(old(View()), syscall)]
    {
      if syscall !in records {
        var made := new SyscallRecord();
        records := records[syscall := made];
      }
      tmp := records[syscall];
    }

    method Incr(syscall: int, timeNs: U64)
      requires Valid()
      modifies this, Owned()
      ensures Valid() && OnlyNewRecords()
      ensures View() == Counted(old(View()), Call(syscall, timeNs))
    {
      hide StatOf;
      var tmp := GetSafe(syscall);
      ghost var found := View();
      assert tmp.View() == found[syscall];
      tmp.count := Add64(tmp.count, 1);
      tmp.totalNs := Add64(tmp.totalNs, timeNs);
      SameMap(View(), found[syscall := tmp.View()]);
    }

    /** Visits the entries of the other table in any order. */
    method Merge(other: SyscallStatTable)
      requires Valid() && other.Valid() && ApartFrom(other)
      modifies this, Owned()
      ensures Valid() && OnlyNewRecords()
      ensures View() == Combined(old(View()), old(other.View()))
    {
      hide CombinedStat, Combined, StatOf;
      ghost var into, from := View(), other.View();
      NothingCombined(into);
      var todo := other.records.Keys;
      assert from - todo == map[];
      while todo != {}
        invariant todo <= other.records.Keys
        invariant other.records == old(other.records) && other.View() == from
        invariant Valid() && OnlyNewRecords() && ApartFrom(other)
        invariant View() == Combined(into, from - todo)
        decreases todo
      {
        var syscall := NextKey(todo);
        CombinedStep(into, from, todo, syscall);
        MergeSyscall(syscall, other.records[syscall]);
        todo := todo - {syscall};
      }
      assert from - todo == from;
    }

    /** Merges one record of another table into this one. */
    method MergeSyscall(syscall: int, stat2: SyscallRecord)
      requires Valid() && forall k :: k in records ==> records[k] != stat2
      modifies this, Owned()
      ensures Valid() && OnlyNewRecords()
      ensures View() == old(View())[syscall := CombinedStat(StatOf(old(View()), syscall), stat2.View())]
    {
      hide StatOf;
      var stat1 := GetSafe(syscall);
      ghost var found := View();
      assert stat1.View() == found[syscall];
      stat1.count := Add64(stat1.count, stat2.count);
      stat1.totalNs := Add64(stat1.totalNs, stat2.totalNs);
      SameMap(View(), found[syscall := stat1.View()]);
    }
  }

  // ---- merging is a homomorphism and commutes ----

  lemma CombinedStatAssociates(a: SyscallStat, b: SyscallStat, c: SyscallStat)
    ensures CombinedStat(a, CombinedStat(b, c)) == CombinedStat(CombinedStat(a, b), c)
  {
    Add64Associates(a.count, b.count, c.count);
    Add64Associates(a.totalNs, b.totalNs, c.totalNs);
  }

  /** A merged table holds, for every syscall, the merge of what the two tables hold. */
  lemma CombinedPointwise(a: SyscallTable, b: SyscallTable, k: int)
    ensures k in Combined(a, b) <==> k in a || k in b
    ensures StatOf(Combined(a, b), k) == CombinedStat(StatOf(a, k), StatOf(b, k))
  {}

  lemma CountedPointwise(t: SyscallTable, c: Call, k: int)
    ensures k in Counted(t, c) <==> k in t || k == c.syscall
    ensures StatOf(Counted(t, c), k)
         == if k == c.syscall then CombinedStat(StatOf(t, k), SyscallStat(1, c.ns)) else StatOf(t, k)
  {}

  lemma SameTable(s: SyscallTable, t: SyscallTable)
    requires forall k :: k in s <==> k in t
    requires forall k :: StatOf(s, k) == StatOf(t, k)
    ensures s == t
  {
    forall k | k in s ensures s[k] == t[k] {
      assert StatOf(s, k) == StatOf(t, k);
    }
    SameMap(s, t);
  }

  lemma CountedCombined(a: SyscallTable, b: SyscallTable, c: Call)
    ensures Combined(a, Counted(b, c)) == Counted(Combined(a, b), c)
  {
    hide CombinedStat, Combined, Counted, StatOf;
    var left, right := Combined(a, Counted(b, c)), Counted(Combined(a, b), c);
    forall k ensures (k in left <==> k in right) && StatOf(left, k) == StatOf(right, k) {
      CombinedPointwise(a, Counted(b, c), k);
      CombinedPointwise(a, b, k);
      CountedPointwise(b, c, k);
      CountedPointwise(Combined(a, b), c, k);
      CombinedStatAssociates(StatOf(a, k), StatOf(b, k), SyscallStat(1, c.ns));
    }
    SameTable(left, right);
  }

  /** Merging two collected tables gives the table of the concatenated calls. */
  lemma {:induction false} MergeIsHomomorphism(xs: seq<Call>, ys: seq<Call>)
    ensures Combined(TableOf(xs), TableOf(ys)) == TableOf(xs + ys)
  {
    if ys == [] {
      assert xs + ys == xs;
    } else {
      var init, last := ys[..|ys| - 1], ys[|ys| - 1];
      MergeIsHomomorphism(xs, init);
      CountedCombined(TableOf(xs), TableOf(init), last);
      assert (xs + ys)[..|xs + ys| - 1] == xs + init;
    }
  }

  lemma MergeCommutes(a: SyscallTable, b: SyscallTable)
    ensures Combined(a, b) == Combined(b, a)
  {
    forall k
      ensures k in Combined(a, b) <==> k in Combined(b, a)
      ensures StatOf(Combined(a, b), k) == StatOf(Combined(b, a), k)
    {
      CombinedPointwise(a, b, k);
      CombinedPointwise(b, a, k);
    }
    SameTable(Combined(a, b), Combined(b, a));
  }

  /** The counters depend on which calls were counted, not on their order. */
  lemma {:induction false} OrderIndependent(xs: seq<Call>, ys: seq<Call>)
    requires multiset(xs) == multiset(ys)
    ensures TableOf(xs) == TableOf(ys)
    decreases |xs|
  {
    hide TableOf, Combined;
    if xs == [] {
      assert |multiset(ys)| == 0;
    } else {
      var i := FindFirst(xs, ys);
      var before, after := ys[..i], ys[i + 1..];
      OrderIndependent(xs[1..], before + after);
      MergeIsHomomorphism([xs[0]], xs[1..]);
      assert xs == [xs[0]] + xs[1..];
      MergeIsHomomorphism(before, [xs[0]]);
      MergeIsHomomorphism([xs[0]], before);
      MergeCommutes(TableOf(before), TableOf([xs[0]]));
      MergeIsHomomorphism(before + [xs[0]], after);
      MergeIsHomomorphism([xs[0]] + before, after);
      MergeIsHomomorphism([xs[0]], before + after);
      assert [xs[0]] + before + after == [xs[0]] + (before + after);
    }
  }

  // ---- what the counters say ----

  /** The calls of one syscall, in order. */
  function Of(cs: seq<Call>, syscall: int): seq<Call> {
    if cs == [] then []
    else
      var init, last := Of(cs[..|cs| - 1], syscall), cs[|cs| - 1];
      if last.syscall == syscall then init + [last] else init
  }

  function SumNs(cs: seq<Call>): nat {
    if cs == [] then 0 else SumNs(cs[..|cs| - 1]) + cs[|cs| - 1].ns
  }

  /** The counters of a syscall are the number of its calls and the time spent in them, up to
      wrap-around; a syscall that was not called has no entry. */
  lemma {:induction false} CountersExact(cs: seq<Call>, syscall: int)
    ensures syscall in TableOf(cs) <==> Of(cs, syscall) != []
    ensures StatOf(TableOf(cs), syscall).count == |Of(cs, syscall)| % 0x1_0000_0000_0000_0000
    ensures StatOf(TableOf(cs), syscall).totalNs == SumNs(Of(cs, syscall)) % 0x1_0000_0000_0000_0000
  {
    hide Counted, Wrap, StatOf;
    WrapIs(|Of(cs, syscall)|);
    WrapIs(SumNs(Of(cs, syscall)));
    if cs == [] {
      NothingCounted(syscall);
    } else {
      var init, last := cs[..|cs| - 1], cs[|cs| - 1];
      CountersExact(init, syscall);
      WrapIs(|Of(init, syscall)|);
      WrapIs(SumNs(Of(init, syscall)));
      CountedPointwise(TableOf(init), last, syscall);
      WrapAdd(|Of(init, syscall)|, 1);
      WrapAdd(SumNs(Of(init, syscall)), last.ns);
    }
  }

  lemma OfOneMore(cs: seq<Call>, c: Call, syscall: int)
    ensures var more := Of(cs + [c], syscall);
            && more == Of(cs, syscall) + (if c.syscall == syscall then [c] else [])
            && SumNs(more) == SumNs(Of(cs, syscall)) + (if c.syscall == syscall then c.ns else 0)
  {
    assert (cs + [c])[..|cs|] == cs;
    assert (Of(cs, syscall) + [c])[..|Of(cs, syscall)|] == Of(cs, syscall);
    assert Of(cs, syscall) + [] == Of(cs, syscall);
  }

  lemma WrapIs(n: nat)
    ensures Wrap(n) == n % 0x1_0000_0000_0000_0000
  {}

  lemma NothingCounted(syscall: int)
    ensures StatOf(TableOf([]), syscall) == SyscallStat(0, 0)
  {}
}
