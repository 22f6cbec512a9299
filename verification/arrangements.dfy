/** Two arrangements of the same elements. */
module Arrangements {

  /** Finds the first element of one arrangement in another. */
  lemma FindFirst<T>(xs: seq<T>, ys: seq<T>) returns (i: nat)
    requires multiset(xs) == multiset(ys) && xs != []
    ensures i < |ys| && ys == ys[..i] + [xs[0]] + ys[i + 1..]
    ensures multiset(xs[1..]) == multiset(ys[..i] + ys[i + 1..])
  {
    var c := xs[0];
    assert c in multiset(ys);
    i :| 0 <= i < |ys| && ys[i] == c;
    assert xs == [c] + xs[1..];
    assert ys == ys[..i] + [c] + ys[i + 1..];
    assert multiset(xs[1..]) == multiset(xs) - multiset{c};
    assert multiset(ys[..i] + ys[i + 1..]) == multiset(ys) - multiset{c};
  }
}
