/** Sequences seen as Python lists, and the lists that come out of iterating a Python set. */
module Seqs {

  predicate NoDuplicates<T(==)>(xs: seq<T>)
  {
    forall i, j :: 0 <= i < j < |xs| ==> xs[i] != xs[j]
  }

  function Elements<T(==)>(xs: seq<T>): set<T>
  {
    set x | x in xs
  }

  /** `xs` lists every element of `s` exactly once, in some order. */
  predicate Enumerates<T(==)>(xs: seq<T>, s: set<T>)
  {
    NoDuplicates(xs) && Elements(xs) == s
  }

  /**
   * Iterating a Python set, as `a_list.extend(a_set)` does. The order in which
   * CPython yields the elements of a set depends on hashing; the model leaves it
   * open and promises only that every element comes out once.
   */
  method ListOfSet<T(==)>(s: set<T>) returns (xs: seq<T>)
    ensures Enumerates(xs, s)
  {
    xs := [];
    var rest := s;
    while rest != {}
      invariant Elements(xs) + rest == s
      invariant Elements(xs) !! rest
      invariant NoDuplicates(xs)
      decreases rest
    {
      var x :| x in rest;
      xs := xs + [x];
      rest := rest - {x};
    }
  }

  /** A list that enumerates a set is exactly as long as the set is large. */
  lemma {:induction false} EnumerationSize<T>(xs: seq<T>, s: set<T>)
    requires Enumerates(xs, s)
    ensures |xs| == |s|
  {
    if xs != [] {
      var rest := xs[1..];
      assert Elements(rest) == s - {xs[0]} by {
        assert forall x :: x in rest ==> x in xs && x != xs[0];
        assert forall x :: x in xs && x != xs[0] ==> x in rest;
      }
      EnumerationSize(rest, s - {xs[0]});
    }
  }
}
