/**
 * Order-free bookkeeping used by the per-tick stages.
 *
 * The engine visits query results and hash-map entries in an unspecified
 * order. A stage whose effect is additive is therefore specified by a sum
 * over a set, and `SumOver` is shown not to depend on the order in which the
 * elements are taken (`SumRemove`). A stage whose effect does depend on the
 * order is specified over a ghost visiting order that `Lists` ties to the set
 * being visited.
 */
module Collections {

  /** `order` visits every element of `s` exactly once. */
  ghost predicate Lists<T(!new)>(order: seq<T>, s: set<T>)
  {
    (forall i, j :: 0 <= i < j < |order| ==> order[i] != order[j]) &&
    (forall x :: x in order <==> x in s)
  }

  /** A listing of a set is as long as the set is large. */
  lemma {:induction false} ListsSize<T(!new)>(order: seq<T>, s: set<T>)
    requires Lists(order, s)
    ensures |order| == |s|
    decreases |order|
  {
    if order != [] {
      var last := order[|order| - 1];
      var front := order[..|order| - 1];
      assert order == front + [last];
      assert forall x :: x in front <==> x in s - {last};
      ListsSize(front, s - {last});
    }
  }

  /** The sum of `f` over the finite set `s`. */
  ghost function SumOver<T>(s: set<T>, f: T -> int): int
    decreases s
  {
    if s == {} then 0
    else
      var x :| x in s;
      f(x) + SumOver(s - {x}, f)
  }

  /** The sum over a set may be taken starting from any of its elements. */
  lemma {:induction false} SumRemove<T>(s: set<T>, f: T -> int, y: T)
    requires y in s
    ensures SumOver(s, f) == f(y) + SumOver(s - {y}, f)
    decreases s
  {
    var x :| x in s && SumOver(s, f) == f(x) + SumOver(s - {x}, f);
    if x != y {
      assert s - {x} - {y} == s - {y} - {x};
      SumRemove(s - {x}, f, y);
      SumRemove(s - {y}, f, x);
    }
  }

  /** Adding a new element adds its value. */
  lemma SumAdd<T>(s: set<T>, f: T -> int, y: T)
    requires y !in s
    ensures SumOver(s + {y}, f) == SumOver(s, f) + f(y)
  {
    SumRemove(s + {y}, f, y);
    assert s + {y} - {y} == s;
  }

  /** Elements of value 0 do not change the sum. */
  lemma {:induction false} SumOfZeros<T>(s: set<T>, f: T -> int)
    requires forall x :: x in s ==> f(x) == 0
    ensures SumOver(s, f) == 0
    decreases s
  {
    if s != {} {
      var x :| x in s;
      SumRemove(s, f, x);
      SumOfZeros(s - {x}, f);
    }
  }

  /** Summing 1 over a set counts it. */
  lemma {:induction false} SumOfOnes<T>(s: set<T>, f: T -> int)
    requires forall x :: x in s ==> f(x) == 1
    ensures SumOver(s, f) == |s|
    decreases s
  {
    if s != {} {
      var x :| x in s;
      SumRemove(s, f, x);
      SumOfOnes(s - {x}, f);
    }
  }

  /** Two functions that agree on `s` have the same sum over it. */
  lemma {:induction false} SumCongruent<T>(s: set<T>, f: T -> int, g: T -> int)
    requires forall x :: x in s ==> f(x) == g(x)
    ensures SumOver(s, f) == SumOver(s, g)
    decreases s
  {
    if s != {} {
      var x :| x in s;
      SumRemove(s, f, x);
      SumRemove(s, g, x);
      SumCongruent(s - {x}, f, g);
    }
  }

  /** The sum of a sequence of integers, front to back. */
  function SumSeq(xs: seq<int>): int
  {
    if xs == [] then 0 else SumSeq(xs[..|xs| - 1]) + xs[|xs| - 1]
  }
}
