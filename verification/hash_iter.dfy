/** Iteration over a hash table: every key once, in no particular order. */
module HashIter {

  /** Yields some key that has not been visited yet. */
  method NextKey<K>(todo: set<K>) returns (key: K)
    requires todo != {}
    ensures key in todo
  {
    key :| key in todo;
  }

  /** A set that is not empty is some element and the rest. */
  lemma SomeElement<K>(s: set<K>) returns (x: K)
    requires s != {}
    ensures x in s && |s - {x}| == |s| - 1
  {
    x :| x in s;
  }
}
