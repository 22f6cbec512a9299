/** Finite maps: equality by lookup, and adding up values. */
module Maps {
  import opened HashIter

  lemma SameMap<V>(a: map<int, V>, b: map<int, V>)
    requires forall k :: k in a <==> k in b
    requires forall k :: k in a ==> a[k] == b[k]
    ensures a == b
  {
    if a.Keys - b.Keys != {} {
      var k := SomeElement(a.Keys - b.Keys);
      assert false;
    }
    if b.Keys - a.Keys != {} {
      var k := SomeElement(b.Keys - a.Keys);
      assert false;
    }
    var differing := set k | k in a && a[k] != b[k];
    if differing != {} {
      var k := SomeElement(differing);
      assert false;
    }
    assert forall k: int :: k !in differing;
  }

  lemma SameSet(a: set<int>, b: set<int>)
    requires forall x :: x in a <==> x in b
    ensures a == b
  {
    if a - b != {} {
      var x := SomeElement(a - b);
      assert false;
    }
    if b - a != {} {
      var x := SomeElement(b - a);
      assert false;
    }
  }

  ghost function Total<K>(m: map<K, int>): int
    decreases |m|
  {
    if m == map[] then 0
    else
      var k :| k in m;
      m[k] + Total(m - {k})
  }

  /** Any key may be taken out first. */
  lemma {:induction false} TotalExtract<K>(m: map<K, int>, k: K)
    requires k in m
    ensures Total(m) == m[k] + Total(m - {k})
    decreases |m|
  {
    var p :| p in m && Total(m) == m[p] + Total(m - {p});
    if p != k {
      TotalExtract(m - {p}, k);
      TotalExtract(m - {k}, p);
      assert m - {p} - {k} == m - {k} - {p};
    }
  }

  lemma TotalUpdate<K>(m: map<K, int>, k: K, v: int)
    ensures Total(m[k := v]) == Total(m) - (if k in m then m[k] else 0) + v
  {
    var n := m[k := v];
    TotalExtract(n, k);
    assert n - {k} == m - {k};
    if k in m {
      TotalExtract(m, k);
    } else {
      assert m - {k} == m;
    }
  }

  lemma {:induction false} TotalNotNegative<K>(m: map<K, int>)
    requires forall k :: k in m ==> m[k] >= 0
    ensures Total(m) >= 0
    decreases |m|
  {
    if m != map[] {
      var k :| k in m && Total(m) == m[k] + Total(m - {k});
      TotalNotNegative(m - {k});
    }
  }
}
