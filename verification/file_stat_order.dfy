/** Exactly when the order of the charges leaves no mark at all on the statistics. */
module FileStatOrder {
  import opened FileStatLaws
  import opened FileStats
  import opened Words

  function Histogram(s: FileStat, read: bool): Blocks {
    if read then s.read.blocks else s.write.blocks
  }

  /** The charge is a read (or a write) of a file with the given size. */
  predicate Transfers(c: Charge, name: string, read: bool, bytes: S64) {
    && c.name == name
    && match c.op
       case Read(_, b) => read && b == bytes
       case Written(_, b) => !read && b == bytes
       case _ => false
  }

  ghost predicate Occurs(cs: seq<Charge>, name: string, read: bool, bytes: S64) {
    exists c :: c in cs && Transfers(c, name, read, bytes)
  }

  /** No two reads, and no two writes, of one file have different sizes that are equal in
      their low 32 bits. */
  ghost predicate NoAliases(cs: seq<Charge>) {
    forall name, read, a: S64, b: S64 ::
      Occurs(cs, name, read, a) && Occurs(cs, name, read, b) && Low32(a) == Low32(b) ==> a == b
  }

  /** Every size that a histogram stores is that of a charge. */
  ghost predicate SizesOccur(cs: seq<Charge>, t: FileTable) {
    forall n, read, k :: n in t && k in Histogram(t[n], read) ==>
      Occurs(cs, n, read, Histogram(t[n], read)[k].size)
  }

  lemma UpdatedHistogram(s: FileStat, op: Op, read: bool)
    ensures Histogram(Updated(s, op), read) ==
            match op
            case Read(_, bytes) => if read then Bumped(s.read.blocks, bytes) else s.write.blocks
            case Written(_, bytes) => if read then s.read.blocks else Bumped(s.write.blocks, bytes)
            case _ => Histogram(s, read)
  {
    hide Bumped;
  }

  lemma OccursMore(cs: seq<Charge>, c: Charge, name: string, read: bool, bytes: S64)
    ensures Occurs(cs, name, read, bytes) ==> Occurs(cs + [c], name, read, bytes)
    ensures Transfers(c, name, read, bytes) ==> Occurs(cs + [c], name, read, bytes)
  {
    hide Transfers;
    assert c in cs + [c] && forall d :: d in cs ==> d in cs + [c];
  }

  lemma {:induction false} StoredSizesOccur(cs: seq<Charge>)
    ensures SizesOccur(cs, TableOf(cs))
  {
    hide SizesOccur, Charged;
    if cs == [] {
      FreshStoresNothing();
    } else {
      var init, last := cs[..|cs| - 1], cs[|cs| - 1];
      StoredSizesOccur(init);
      assert cs == init + [last];
      ChargedSizesOccur(init, TableOf(init), last);
    }
  }

  lemma FreshStoresNothing()
    ensures SizesOccur([], FRESH)
  {}

  lemma ChargedSizesOccur(cs: seq<Charge>, t: FileTable, c: Charge)
    requires SizesOccur(cs, t)
    ensures SizesOccur(cs + [c], Charged(t, c))
  {
    var t' := Charged(t, c);
    forall n, read, k | n in t' && k in Histogram(t'[n], read)
      ensures Occurs(cs + [c], n, read, Histogram(t'[n], read)[k].size)
    {
      hide Updated, Occurs, Transfers;
      var size := Histogram(t'[n], read)[k].size;
      OccursMore(cs, c, n, read, size);
      if n == c.name {
        NewSizeIsTransferred(StatOf(t, n), c, read, k);
      }
    }
  }

  /** A size that was not stored before is that of the charge. */
  lemma NewSizeIsTransferred(s: FileStat, c: Charge, read: bool, k: int)
    requires k in Histogram(Updated(s, c.op), read)
    ensures var size := Histogram(Updated(s, c.op), read)[k].size;
            || (k in Histogram(s, read) && Histogram(s, read)[k].size == size)
            || Transfers(c, c.name, read, size)
  {
    UpdatedHistogram(s, c.op, read);
    hide Updated, Low32;
  }

  lemma OccursInAnyOrder(xs: seq<Charge>, ys: seq<Charge>, name: string, read: bool, bytes: S64)
    requires multiset(xs) == multiset(ys) && Occurs(xs, name, read, bytes)
    ensures Occurs(ys, name, read, bytes)
  {
    var c :| c in xs && Transfers(c, name, read, bytes);
    assert c in multiset(ys);
  }

  /** Tables that differ at most in stored sizes do not differ if these are the same. */
  lemma SameSizesSameTable(t: FileTable, u: FileTable)
    requires WellFormed(t) && WellFormed(u) && Canon(t) == Canon(u)
    requires forall n, read, k :: n in t && n in u && k in Histogram(t[n], read) && k in Histogram(u[n], read) ==>
      Histogram(t[n], read)[k].size == Histogram(u[n], read)[k].size
    ensures t == u
  {
    assert t.Keys == Canon(t).Keys == Canon(u).Keys == u.Keys;
    forall n | n in t ensures t[n] == u[n] {
      assert Canon(t)[n] == CanonStat(t[n]) && Canon(u)[n] == CanonStat(u[n]);
      SameSizesSameBlocks(t[n].read.blocks, u[n].read.blocks, t[n], u[n], true);
      SameSizesSameBlocks(t[n].write.blocks, u[n].write.blocks, t[n], u[n], false);
    }
  }

  lemma SameSizesSameBlocks(a: Blocks, b: Blocks, s: FileStat, u: FileStat, read: bool)
    requires a == Histogram(s, read) && b == Histogram(u, read)
    requires SlotsIndexed(a) && SlotsIndexed(b) && CanonBlocks(a) == CanonBlocks(b)
    requires forall k :: k in a && k in b ==> a[k].size == b[k].size
    ensures a == b
  {
    assert a.Keys == CanonBlocks(a).Keys == CanonBlocks(b).Keys == b.Keys;
    forall k | k in a ensures a[k] == b[k] {
      assert CanonBlocks(a)[k] == Block(k, a[k].count) && CanonBlocks(b)[k] == Block(k, b[k].count);
    }
  }

  lemma UnaliasedOrders(xs: seq<Charge>, ys: seq<Charge>)
    requires multiset(xs) == multiset(ys) && NoAliases(xs)
    ensures TableOf(xs) == TableOf(ys)
  {
    hide TableOf, Canon, Histogram, Occurs, Low32;
    OrderIndependent(xs, ys);
    StoredSizesOccur(xs);
    StoredSizesOccur(ys);
    var t, u := TableOf(xs), TableOf(ys);
    forall n, read, k | n in t && n in u && k in Histogram(t[n], read) && k in Histogram(u[n], read)
      ensures Histogram(t[n], read)[k].size == Histogram(u[n], read)[k].size
    {
      SlotOf(t, n, read, k);
      SlotOf(u, n, read, k);
      OccursInAnyOrder(ys, xs, n, read, Histogram(u[n], read)[k].size);
    }
    SameSizesSameTable(t, u);
  }

  lemma SlotOf(t: FileTable, n: string, read: bool, k: int)
    requires WellFormed(t) && n in t && k in Histogram(t[n], read)
    ensures Low32(Histogram(t[n], read)[k].size) == k
  {
    assert StatInRange(t[n]);
  }

  // ---- and only then ----

  lemma ToFront(cs: seq<Charge>, c: Charge) returns (rest: seq<Charge>)
    requires c in cs
    ensures multiset([c] + rest) == multiset(cs)
  {
    var i :| 0 <= i < |cs| && cs[i] == c;
    rest := cs[..i] + cs[i + 1..];
    assert cs == cs[..i] + [c] + cs[i + 1..];
  }

  /** The size that comes first is the one that the slot stores for good. */
  lemma {:induction false} FirstSizeStays(c: Charge, read: bool, bytes: S64, rest: seq<Charge>)
    requires Transfers(c, c.name, read, bytes)
    ensures var t := TableOf([c] + rest);
            && c.name in t && Low32(bytes) in Histogram(t[c.name], read)
            && Histogram(t[c.name], read)[Low32(bytes)].size == bytes
  {
    if rest == [] {
      assert [c] + rest == [c] && [c][..0] == [];
      UpdatedHistogram(StatOf(FRESH, c.name), c.op, read);
    } else {
      var init, last := rest[..|rest| - 1], rest[|rest| - 1];
      FirstSizeStays(c, read, bytes, init);
      assert ([c] + rest)[..|[c] + rest| - 1] == [c] + init;
      UpdatedHistogram(StatOf(TableOf([c] + init), last.name), last.op, read);
      hide Updated, Low32;
    }
  }

  lemma AliasesLeaveMark(xs: seq<Charge>, name: string, read: bool, a: S64, b: S64)
    requires Occurs(xs, name, read, a) && Occurs(xs, name, read, b) && Low32(a) == Low32(b) && a != b
    ensures exists ys :: multiset(ys) == multiset(xs) && TableOf(ys) != TableOf(xs)
  {
    hide TableOf, Histogram, Low32;
    var c :| c in xs && Transfers(c, name, read, a);
    var d :| d in xs && Transfers(d, name, read, b);
    var ca := ToFront(xs, c);
    var db := ToFront(xs, d);
    FirstSizeStays(c, read, a, ca);
    FirstSizeStays(d, read, b, db);
    assert TableOf([c] + ca) != TableOf([d] + db);
  }

  /** All orders of the same charges give the same table exactly when no two sizes get in
      each other's way. */
  lemma OrderIndependentExactly(xs: seq<Charge>)
    ensures (forall ys :: multiset(ys) == multiset(xs) ==> TableOf(ys) == TableOf(xs)) <==> NoAliases(xs)
  {
    hide TableOf, Low32, Transfers;
    if NoAliases(xs) {
      forall ys | multiset(ys) == multiset(xs) ensures TableOf(ys) == TableOf(xs) {
        UnaliasedOrders(xs, ys);
      }
    } else {
      var name, read, a: S64, b: S64 :|
        Occurs(xs, name, read, a) && Occurs(xs, name, read, b) && Low32(a) == Low32(b) && a != b;
      AliasesLeaveMark(xs, name, read, a, b);
    }
  }

  predicate SizesFit(cs: seq<Charge>) {
    forall c :: c in cs ==>
      (c.op.Read? ==> FitsInt(c.op.bytes)) && (c.op.Written? ==> FitsInt(c.op.bytes))
  }

  /** Sizes that fit in an int, as all the kernel transfers in one call do, are safe. */
  lemma FittingSizesOrderIndependent(xs: seq<Charge>, ys: seq<Charge>)
    requires multiset(xs) == multiset(ys) && SizesFit(xs)
    ensures NoAliases(xs) && TableOf(xs) == TableOf(ys)
  {
    hide TableOf;
    forall name, read, a: S64, b: S64 |
      Occurs(xs, name, read, a) && Occurs(xs, name, read, b) && Low32(a) == Low32(b)
      ensures a == b
    {
      Low32Idempotent(a);
      Low32Idempotent(b);
      hide Low32;
    }
    UnaliasedOrders(xs, ys);
  }
}
