/**
 * `HasNextIterator` (scanner.py): a cursor over a Python list that other code
 * keeps appending to. The class reads the list through a shared reference, so
 * appends made through `scan_queue` are visible to the cursor.
 */
module Iterator {
  import opened Wrappers

  /** Python's `xs[k]`: a negative index counts from the end; `None` is the IndexError. */
  function PyIndex<T>(xs: seq<T>, k: int): (r: Option<T>)
    ensures r.Some? <==> -|xs| <= k < |xs|
    ensures r.Some? ==> r.value == xs[if k < 0 then |xs| + k else k]
  {
    if 0 <= k < |xs| then Some(xs[k])
    else if -|xs| <= k < 0 then Some(xs[|xs| + k])
    else None
  }

  /**
   * Which `next` the cursor runs: the program's own (`AsWritten`, which returns
   * `_it[_idx]`) or the one its `has_next` was written for (`Corrected`, which
   * returns `_it[_idx + 1]`, the element `has_next` just looked at).
   */
  datatype Cursor = AsWritten | Corrected

  /** `has_next`: reading `_it[_idx + 1]` does not raise. */
  function HasNextAt<T>(xs: seq<T>, idx: int): bool
  {
    PyIndex(xs, idx + 1).Some?
  }

  /**
   * `next`: the value read and the new `_idx`. The read comes first, so when it
   * raises `_idx` is left as it was.
   */
  function NextAt<T>(xs: seq<T>, idx: int, c: Cursor): (Option<T>, int)
  {
    var v := PyIndex(xs, if c == AsWritten then idx else idx + 1);
    (v, if v.Some? then idx + 1 else idx)
  }

  lemma HasNextExactly<T>(xs: seq<T>, idx: int)
    requires -1 <= idx
    ensures HasNextAt(xs, idx) <==> idx + 1 < |xs|
  {
  }

  /**
   * The program's `next` moves the cursor by exactly one whenever `has_next`
   * holds; from `_idx >= 0` it returns `_it[_idx]`, one behind the element
   * `has_next` inspected, and its first call (`_idx == -1`) returns the last
   * element of the list.
   */
  lemma NextAsWritten<T>(xs: seq<T>, idx: int)
    requires -1 <= idx && HasNextAt(xs, idx)
    ensures NextAt(xs, idx, AsWritten).1 == idx + 1
    ensures idx >= 0 ==> NextAt(xs, idx, AsWritten).0 == Some(xs[idx])
    ensures idx == -1 ==> NextAt(xs, idx, AsWritten).0 == Some(xs[|xs| - 1])
  {
  }

  /** The corrected `next` returns exactly the element `has_next` inspected. */
  lemma NextCorrected<T>(xs: seq<T>, idx: int)
    requires -1 <= idx && HasNextAt(xs, idx)
    ensures NextAt(xs, idx, Corrected) == (Some(xs[idx + 1]), idx + 1)
  {
  }

  /**
   * The values returned by `while it.has_next(): it.next()` from position `idx`
   * over a list that does not grow meanwhile.
   */
  function Drain<T>(xs: seq<T>, idx: int, c: Cursor): seq<T>
    requires -1 <= idx
    decreases |xs| - idx
  {
    if HasNextAt(xs, idx) then
      var (v, next) := NextAt(xs, idx, c);
      if v.Some? && next == idx + 1 then [v.value] + Drain(xs, next, c) else []
    else []
  }

  /**
   * Draining the program's cursor from a position `idx >= 0` yields
   * `xs[idx .. |xs| - 1]`: the last element of the list is never returned.
   */
  lemma {:induction false} DrainAsWrittenFrom<T>(xs: seq<T>, idx: int)
    requires 0 <= idx < |xs|
    ensures Drain(xs, idx, AsWritten) == xs[idx..|xs| - 1]
    decreases |xs| - idx
  {
    if idx + 1 < |xs| {
      DrainAsWrittenFrom(xs, idx + 1);
    }
  }

  /**
   * A fresh cursor of the program returns the last element first and then
   * every element but the last, in order.
   */
  lemma DrainAsWritten<T>(xs: seq<T>)
    requires xs != []
    ensures Drain(xs, -1, AsWritten) == [xs[|xs| - 1]] + xs[..|xs| - 1]
  {
    DrainAsWrittenFrom(xs, 0);
  }

  /** The corrected cursor returns every element after `idx`, in order. */
  lemma {:induction false} DrainCorrected<T>(xs: seq<T>, idx: int)
    requires -1 <= idx < |xs|
    ensures Drain(xs, idx, Corrected) == xs[idx + 1..]
    decreases |xs| - idx
  {
    if idx + 1 < |xs| {
      DrainCorrected(xs, idx + 1);
    }
  }

  /** A Python list, shared by reference between the crawler and its cursor. */
  class PyList<T> {
    var elems: seq<T>

    constructor (xs: seq<T>)
      ensures elems == xs
    {
      elems := xs;
    }

    /** `list.extend(xs)`. */
    method Extend(xs: seq<T>)
      modifies this
      ensures elems == old(elems) + xs
    {
      elems := elems + xs;
    }
  }

  class HasNextIterator<T> {
    const it: PyList<T>
    var idx: int
    const cursor: Cursor

    /** `_idx` starts at -1 and only ever grows. */
    ghost predicate Valid()
      reads this
    {
      -1 <= idx
    }

    constructor (it: PyList<T>, cursor: Cursor)
      ensures this.it == it && this.cursor == cursor
      ensures idx == -1 && Valid()
    {
      this.it := it;
      this.cursor := cursor;
      idx := -1;
    }

    method HasNext() returns (b: bool)
      requires Valid()
      ensures b <==> idx + 1 < |it.elems|
      ensures b == HasNextAt(it.elems, idx)
    {
      b := PyIndex(it.elems, idx + 1).Some?;
    }

    /** `next`; `None` is the IndexError the read raises, after which `_idx` is unchanged. */
    method Next() returns (v: Option<T>)
      requires Valid()
      modifies this
      ensures Valid()
      ensures (v, idx) == NextAt(it.elems, old(idx), cursor)
    {
      v := PyIndex(it.elems, if cursor == AsWritten then idx else idx + 1);
      if v.Some? {
        idx := idx + 1;
      }
    }
  }
}
