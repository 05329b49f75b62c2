/**
 * The ranking step of `gen_markdown` (scanner.py:98-103): every author's
 * records flattened in bookcase order, then `sorted(..., key=sort_key,
 * reverse=True)`. Python's sort is stable, also with `reverse=True`, so
 * records with equal keys keep the order the flattening gave them.
 */
module Ranking {
  import opened Dicts
  import opened Books

  /** The numeric field the ranking sorts by (`sort_key`, `'stars'` by default). */
  datatype SortKey = Stars | Subscriptions

  function KeyOf(r: Record, k: SortKey): int
  {
    match k
    case Stars => r.stars
    case Subscriptions => r.subscriptions
  }

  /** All records of all shelves: shelves in bookcase order, records in shelf order. */
  function AllRecords(bookcase: Bookcase): seq<Record>
  {
    if bookcase == [] then []
    else AllRecords(bookcase[..|bookcase| - 1]) + Values(bookcase[|bookcase| - 1].1)
  }

  /** The number of books over all authors. */
  function TotalBooks(bookcase: Bookcase): nat
  {
    if bookcase == [] then 0
    else TotalBooks(bookcase[..|bookcase| - 1]) + |bookcase[|bookcase| - 1].1|
  }

  lemma {:induction false} ValuesSize<K, V>(d: Dict<K, V>)
    ensures |Values(d)| == |d|
  {
    if d != [] {
      ValuesSize(d[1..]);
    }
  }

  /** The flattened list holds exactly one record per book of the bookcase. */
  lemma {:induction false} AllRecordsSize(bookcase: Bookcase)
    ensures |AllRecords(bookcase)| == TotalBooks(bookcase)
  {
    if bookcase != [] {
      AllRecordsSize(bookcase[..|bookcase| - 1]);
      ValuesSize(bookcase[|bookcase| - 1].1);
    }
  }

  /** `for name, books in bookcase.items(): ranking.extend(books.values())`. */
  method Flatten(bookcase: Bookcase) returns (ranking: seq<Record>)
    ensures ranking == AllRecords(bookcase)
  {
    ranking := [];
    for i := 0 to |bookcase|
      invariant ranking == AllRecords(bookcase[..i])
    {
      var (_, books) := bookcase[i];
      assert bookcase[..i + 1][..i] == bookcase[..i];
      ranking := ranking + Values(books);
    }
    assert bookcase[..|bookcase|] == bookcase;
  }

  predicate NonIncreasing(xs: seq<Record>, k: SortKey)
  {
    forall i, j :: 0 <= i < j < |xs| ==> KeyOf(xs[i], k) >= KeyOf(xs[j], k)
  }

  /** The records of `xs` whose key is `v`, in their order in `xs`. */
  function WithKey(xs: seq<Record>, k: SortKey, v: int): seq<Record>
  {
    if xs == [] then []
    else (if KeyOf(xs[0], k) == v then [xs[0]] else []) + WithKey(xs[1..], k, v)
  }

  /** `x` placed before the first record of `ys` whose key is not greater than its own. */
  function Insert(x: Record, ys: seq<Record>, k: SortKey): seq<Record>
  {
    if ys == [] then [x]
    else if KeyOf(x, k) >= KeyOf(ys[0], k) then [x] + ys
    else [ys[0]] + Insert(x, ys[1..], k)
  }

  /** A reference definition of `sorted(xs, key=..., reverse=True)`: insertion sort. */
  function SortDesc(xs: seq<Record>, k: SortKey): seq<Record>
  {
    if xs == [] then [] else Insert(xs[0], SortDesc(xs[1..], k), k)
  }

  lemma {:induction false} InsertPermutation(x: Record, ys: seq<Record>, k: SortKey)
    ensures multiset(Insert(x, ys, k)) == multiset(ys) + multiset{x}
  {
    if ys != [] && KeyOf(x, k) < KeyOf(ys[0], k) {
      InsertPermutation(x, ys[1..], k);
      assert ys == [ys[0]] + ys[1..];
    }
  }

  lemma {:induction false} InsertOrdered(x: Record, ys: seq<Record>, k: SortKey)
    requires NonIncreasing(ys, k)
    ensures NonIncreasing(Insert(x, ys, k), k)
    ensures Insert(x, ys, k)[0] == if ys == [] || KeyOf(x, k) >= KeyOf(ys[0], k) then x else ys[0]
  {
    if ys != [] && KeyOf(x, k) < KeyOf(ys[0], k) {
      InsertOrdered(x, ys[1..], k);
      InsertPermutation(x, ys[1..], k);
      var r := Insert(x, ys, k);
      forall i, j | 0 <= i < j < |r|
        ensures KeyOf(r[i], k) >= KeyOf(r[j], k)
      {
        if i == 0 {
          assert r[j] in multiset(ys[1..]) + multiset{x};
          assert r[j] == x || r[j] in ys[1..];
        }
      }
    }
  }

  lemma WithKeyCons(x: Record, ys: seq<Record>, k: SortKey, v: int)
    ensures WithKey([x] + ys, k, v) == (if KeyOf(x, k) == v then [x] else []) + WithKey(ys, k, v)
  {
    assert ([x] + ys)[1..] == ys;
  }

  lemma {:induction false} InsertStable(x: Record, ys: seq<Record>, k: SortKey, v: int)
    ensures WithKey(Insert(x, ys, k), k, v) == WithKey([x] + ys, k, v)
  {
    if ys != [] && KeyOf(x, k) < KeyOf(ys[0], k) {
      InsertStable(x, ys[1..], k, v);
      WithKeyCons(ys[0], Insert(x, ys[1..], k), k, v);
      WithKeyCons(x, ys[1..], k, v);
      WithKeyCons(x, ys, k, v);
      assert ys == [ys[0]] + ys[1..];
      WithKeyCons(ys[0], ys[1..], k, v);
    }
  }

  /** The ranking is a permutation of its input. */
  lemma {:induction false} SortPermutation(xs: seq<Record>, k: SortKey)
    ensures multiset(SortDesc(xs, k)) == multiset(xs)
  {
    if xs != [] {
      SortPermutation(xs[1..], k);
      InsertPermutation(xs[0], SortDesc(xs[1..], k), k);
      assert xs == [xs[0]] + xs[1..];
    }
  }

  /** The ranking never increases in the sort key. */
  lemma {:induction false} SortOrdered(xs: seq<Record>, k: SortKey)
    ensures NonIncreasing(SortDesc(xs, k), k)
  {
    if xs != [] {
      SortOrdered(xs[1..], k);
      InsertOrdered(xs[0], SortDesc(xs[1..], k), k);
    }
  }

  /** Records with equal keys keep their input order. */
  lemma {:induction false} SortStable(xs: seq<Record>, k: SortKey, v: int)
    ensures WithKey(SortDesc(xs, k), k, v) == WithKey(xs, k, v)
  {
    if xs != [] {
      SortStable(xs[1..], k, v);
      InsertStable(xs[0], SortDesc(xs[1..], k), k, v);
      WithKeyCons(xs[0], SortDesc(xs[1..], k), k, v);
      WithKeyCons(xs[0], xs[1..], k, v);
      assert xs == [xs[0]] + xs[1..];
    }
  }

  /**
   * The three properties pin the result down: a non-increasing list that
   * agrees with the input on the records of every key is the input sorted.
   */
  lemma {:induction false} SortUnique(xs: seq<Record>, ys: seq<Record>, k: SortKey)
    requires NonIncreasing(xs, k) && NonIncreasing(ys, k)
    requires forall v :: WithKey(xs, k, v) == WithKey(ys, k, v)
    ensures xs == ys
    decreases |xs|
  {
    NonEmptyHasOwnKey(xs, k);
    NonEmptyHasOwnKey(ys, k);
    if xs != [] && ys != [] {
      var m := KeyOf(xs[0], k);
      WithKeyMax(ys, k, m);
      WithKeyMax(xs, k, KeyOf(ys[0], k));
      assert KeyOf(ys[0], k) == m;
      assert WithKey(xs, k, m)[0] == xs[0];
      assert WithKey(ys, k, m)[0] == ys[0];
      assert WithKey(xs, k, m) == WithKey(ys, k, m);
      assert xs[0] == ys[0];
      assert xs == [xs[0]] + xs[1..] && ys == [ys[0]] + ys[1..];
      forall v
        ensures WithKey(xs[1..], k, v) == WithKey(ys[1..], k, v)
      {
        assert WithKey(xs, k, v) == WithKey(ys, k, v);
        WithKeyCons(xs[0], xs[1..], k, v);
        WithKeyCons(ys[0], ys[1..], k, v);
        var p := if KeyOf(xs[0], k) == v then [xs[0]] else [];
        assert (p + WithKey(xs[1..], k, v))[|p|..] == WithKey(xs[1..], k, v);
        assert (p + WithKey(ys[1..], k, v))[|p|..] == WithKey(ys[1..], k, v);
      }
      SortUnique(xs[1..], ys[1..], k);
    }
  }

  lemma NonEmptyHasOwnKey(xs: seq<Record>, k: SortKey)
    ensures xs != [] ==> WithKey(xs, k, KeyOf(xs[0], k)) != []
  {
  }

  /** A key that some record carries is no greater than the first key of a non-increasing list. */
  lemma {:induction false} WithKeyMax(xs: seq<Record>, k: SortKey, v: int)
    requires NonIncreasing(xs, k) && WithKey(xs, k, v) != []
    ensures xs != [] && v <= KeyOf(xs[0], k)
  {
    if xs != [] && KeyOf(xs[0], k) != v {
      WithKeyMax(xs[1..], k, v);
    }
  }

  /**
   * The ranking step: a permutation of every book record of every author, as
   * long as the total book count, non-increasing in the sort key, and in
   * bookcase order among records with equal keys.
   */
  method Rank(bookcase: Bookcase, key: SortKey) returns (ranking: seq<Record>)
    ensures multiset(ranking) == multiset(AllRecords(bookcase))
    ensures |ranking| == TotalBooks(bookcase)
    ensures NonIncreasing(ranking, key)
    ensures forall v :: WithKey(ranking, key, v) == WithKey(AllRecords(bookcase), key, v)
  {
    var flat := Flatten(bookcase);
    ranking := SortDesc(flat, key);
    SortPermutation(flat, key);
    SortOrdered(flat, key);
    forall v
      ensures WithKey(ranking, key, v) == WithKey(flat, key, v)
    {
      SortStable(flat, key, v);
    }
    AllRecordsSize(bookcase);
    assert |ranking| == |multiset(ranking)| == |multiset(flat)| == |flat|;
  }
}
