/** Sequences of events, each made by some thread. */
module Traces {

  /** The events of one thread, in order. */
  function Of<T>(trace: seq<(nat, T)>, t: nat): seq<T> {
    if trace == [] then []
    else
      var init, last := Of(trace[..|trace| - 1], t), trace[|trace| - 1];
      if last.0 == t then init + [last.1] else init
  }

  /** The events of all threads, in order. */
  function Events<T>(trace: seq<(nat, T)>): seq<T> {
    if trace == [] then []
    else Events(trace[..|trace| - 1]) + [trace[|trace| - 1].1]
  }

  /** The events of one thread after those of another. */
  function Grouped<T>(trace: seq<(nat, T)>, order: seq<nat>): seq<T> {
    if order == [] then []
    else Grouped(trace, order[..|order| - 1]) + Of(trace, order[|order| - 1])
  }

  predicate Distinct(order: seq<nat>) {
    forall i, j :: 0 <= i < j < |order| ==> order[i] != order[j]
  }

  lemma OfAppend<T>(trace: seq<(nat, T)>, t: nat, e: T, u: nat)
    ensures Of(trace + [(t, e)], u) == if u == t then Of(trace, u) + [e] else Of(trace, u)
  {
    assert (trace + [(t, e)])[..|trace|] == trace;
  }

  lemma EventsAppend<T>(trace: seq<(nat, T)>, t: nat, e: T)
    ensures Events(trace + [(t, e)]) == Events(trace) + [e]
  {
    assert (trace + [(t, e)])[..|trace|] == trace;
  }

  lemma {:induction false} GroupedOthers<T>(trace: seq<(nat, T)>, t: nat, e: T, order: seq<nat>)
    requires t !in order
    ensures Grouped(trace + [(t, e)], order) == Grouped(trace, order)
  {
    if order != [] {
      var init, last := order[..|order| - 1], order[|order| - 1];
      assert last in order;
      GroupedOthers(trace, t, e, init);
      OfAppend(trace, t, e, last);
    }
  }

  lemma {:induction false} GroupedAppend<T>(trace: seq<(nat, T)>, t: nat, e: T, order: seq<nat>)
    requires t in order && Distinct(order)
    ensures multiset(Grouped(trace + [(t, e)], order)) == multiset(Grouped(trace, order)) + multiset{e}
  {
    var init, last := order[..|order| - 1], order[|order| - 1];
    OfAppend(trace, t, e, last);
    assert order == init + [last];
    if last == t {
      GroupedOthers(trace, t, e, init);
    } else {
      GroupedAppend(trace, t, e, init);
    }
  }

  lemma {:induction false} GroupedEmpty<T>(order: seq<nat>)
    ensures Grouped<T>([], order) == []
  {
    if order != [] {
      GroupedEmpty<T>(order[..|order| - 1]);
    }
  }

  /** Grouping by thread loses and repeats nothing if every thread occurs once. */
  lemma {:induction false} GroupingRearranges<T>(trace: seq<(nat, T)>, order: seq<nat>)
    requires Distinct(order)
    requires forall i :: 0 <= i < |trace| ==> trace[i].0 in order
    ensures multiset(Grouped(trace, order)) == multiset(Events(trace))
  {
    if trace == [] {
      GroupedEmpty<T>(order);
    } else {
      var init, last := trace[..|trace| - 1], trace[|trace| - 1];
      GroupingRearranges(init, order);
      assert trace == init + [(last.0, last.1)];
      assert trace[|trace| - 1].0 in order;
      GroupedAppend(init, last.0, last.1, order);
    }
  }
}
