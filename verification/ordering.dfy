/**
 * Ordering of names. `String.prototype.localeCompare` is abstracted as an
 * arbitrary strict total order `lt` on strings, and sorting a group of entry
 * names is modelled as listing the (distinct) names of that group in `lt` order.
 */
module Ordering {

  ghost predicate IsStrictTotalOrder(lt: (string, string) -> bool) {
    && (forall x :: !lt(x, x))
    && (forall x, y, z :: lt(x, y) && lt(y, z) ==> lt(x, z))
    && (forall x, y :: x != y ==> lt(x, y) || lt(y, x))
  }

  /** Strictly increasing under `lt` (hence without repetitions). */
  ghost predicate SortedBy(xs: seq<string>, lt: (string, string) -> bool) {
    forall i, j :: 0 <= i < j < |xs| ==> lt(xs[i], xs[j])
  }

  predicate IsLeast(m: string, names: set<string>, lt: (string, string) -> bool) {
    m in names && forall y :: y in names && y != m ==> lt(m, y)
  }

  /** Every finite non-empty set of names has a least element. */
  lemma {:induction false} LeastExists(names: set<string>, lt: (string, string) -> bool)
    requires IsStrictTotalOrder(lt) && names != {}
    ensures exists m :: IsLeast(m, names, lt)
    decreases |names|
  {
    var x :| x in names;
    if names == {x} {
      assert IsLeast(x, names, lt);
    } else {
      LeastExists(names - {x}, lt);
      var m :| IsLeast(m, names - {x}, lt);
      if lt(x, m) {
        forall y | y in names && y != x
          ensures lt(x, y)
        {
          if y != m {
            assert lt(m, y);
          }
        }
        assert IsLeast(x, names, lt);
      } else {
        assert IsLeast(m, names, lt);
      }
    }
  }

  /** The least element of a non-empty set under `lt`. */
  function Least(names: set<string>, lt: (string, string) -> bool): (m: string)
    requires IsStrictTotalOrder(lt) && names != {}
    ensures IsLeast(m, names, lt)
  {
    LeastExists(names, lt);
    var m :| IsLeast(m, names, lt);
    m
  }

  /** The names of `names`, each exactly once, in increasing `lt` order. */
  function Sorted(names: set<string>, lt: (string, string) -> bool): (r: seq<string>)
    requires IsStrictTotalOrder(lt)
    ensures |r| == |names|
    ensures forall i :: 0 <= i < |r| ==> r[i] in names
    ensures forall x :: x in names ==> x in r
    ensures SortedBy(r, lt)
    decreases |names|
  {
    if names == {} then []
    else
      var m := Least(names, lt);
      [m] + Sorted(names - {m}, lt)
  }
}
