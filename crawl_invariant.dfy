/**
 * The invariant the scheduler loop keeps (scanner.py:189-212), and what it
 * says about the state in which the loop exits.
 */
module CrawlInvariant {
  import opened Seqs
  import opened Dicts
  import opened Iterator
  import opened Books
  import opened Crawl
  import opened CrawlSteps

  /**
   * How many queue entries, from the front, the cursor has already handed to
   * the scheduler. The program's cursor hands out the last entry on its first
   * call and then `_it[0]`, `_it[1]`, ...; that first call is not counted.
   */
  function Seen(s: State, c: Cursor): nat
  {
    if c == AsWritten then (if s.idx < 0 then 0 else s.idx)
    else (if s.idx < -1 then 0 else s.idx + 1)
  }

  /** `a` has been submitted and not re-queued since, or is blacklisted. */
  predicate Covered(s: State, a: AuthorId)
  {
    a in s.scanning || a in s.blacklist
  }

  /** The author of every unfinished future is in `scanning`. */
  predicate InFlightTracked(s: State)
  {
    forall i :: 0 <= i < |s.futs| && !s.futs[i].done ==> s.futs[i].author in s.scanning
  }

  /** No two unfinished futures scan the same author. */
  predicate InFlightDistinct(futs: seq<Future>)
  {
    forall i, j :: 0 <= i < j < |futs| && !futs[i].done && !futs[j].done ==> futs[i].author != futs[j].author
  }

  predicate Inv(s: State, c: Cursor)
  {
    && -1 <= s.idx < |s.queue|
    && InFlightTracked(s)
    && InFlightDistinct(s.futs)
    // every entry handed out is covered, or appears again further on
    && (forall k :: 0 <= k < Seen(s, c) ==> Covered(s, s.queue[k]) || s.queue[k] in s.queue[Seen(s, c)..])
  }

  lemma InitInv(authors: seq<AuthorId>, bookcase: Bookcase, c: Cursor)
    ensures Inv(Init(authors, bookcase), c)
  {
  }

  /**
   * A turn of the loop keeps the invariant: in particular it never starts a
   * second scan of an author whose scan is still running. `order` must list the
   * re-queued authors when the turn re-queues.
   */
  lemma LoopStepInv(s: State, c: Cursor, order: seq<AuthorId>)
    requires Inv(s, c)
    requires !HasNextAt(s.queue, s.idx) && AllDone(s.futs) ==> Enumerates(order, Unhandled(s))
    ensures Inv(LoopStep(s, c, order).state, c)
  {
    var r := LoopStep(s, c, order).state;
    var n := Seen(s, c);
    if HasNextAt(s.queue, s.idx) {
      var (v, idx) := NextAt(s.queue, s.idx, c);
      var a := v.value;
      assert r.queue == s.queue && r.blacklist == s.blacklist && s.scanning <= r.scanning;
      assert Covered(r, a);
      if !(c == AsWritten && s.idx == -1) {
        assert a == s.queue[n];
        assert Seen(r, c) == n + 1;
        forall k | 0 <= k < n + 1
          ensures Covered(r, r.queue[k]) || r.queue[k] in r.queue[n + 1..]
        {
          if k < n && !Covered(s, s.queue[k]) {
            var j :| n <= j < |s.queue| && s.queue[j] == s.queue[k];
            assert j == n || s.queue[j] in s.queue[n + 1..];
          }
        }
      }
    } else if AllDone(s.futs) && !(s.scanning <= KeySet(s.bookcase)) {
      assert r.queue == s.queue + order;
      assert Seen(r, c) == n;
      forall k | 0 <= k < n
        ensures Covered(r, r.queue[k]) || r.queue[k] in r.queue[n..]
      {
        assert r.queue[n..] == s.queue[n..] + order;
        if s.queue[k] in Unhandled(s) {
          assert s.queue[k] in order;
        }
      }
    }
  }

  /** A worker finishing keeps the invariant. */
  lemma CompleteFutureInv(s: State, c: Cursor, i: nat, starred: Page, owner: Page, order: seq<AuthorId>)
    requires Inv(s, c)
    ensures Inv(CompleteFuture(s, i, starred, owner, order), c)
  {
    if i < |s.futs| && !s.futs[i].done {
      var name := s.futs[i].author;
      var m := s.(futs := s.futs[i := Future(name, true)]);
      var r := CompleteFuture(s, i, starred, owner, order);
      ScanFrame(m, name, starred, owner, order);
      ScanQueue(m, name, starred, owner, order);
      ScanBlacklist(m, name, starred, owner, order);
      var n := Seen(s, c);
      assert Seen(r, c) == n;
      forall k | 0 <= k < n
        ensures Covered(r, r.queue[k]) || r.queue[k] in r.queue[n..]
      {
        assert s.queue[n..] <= r.queue[n..];
      }
    }
  }

  /**
   * When the loop exits, every future is done, `scanning` lies within the
   * bookcase, and every queued author has a bookcase entry or is blacklisted,
   * except, with the program's cursor, copies of the queue's last entry.
   */
  lemma ExitResolves(s: State, c: Cursor, order: seq<AuthorId>)
    requires Inv(s, c)
    requires LoopStep(s, c, order).exited
    ensures AllDone(s.futs) && s.scanning <= KeySet(s.bookcase)
    ensures forall k :: 0 <= k < |s.queue| ==>
              || s.queue[k] in KeySet(s.bookcase)
              || s.queue[k] in s.blacklist
              || (c == AsWritten && s.queue[k] == s.queue[|s.queue| - 1])
  {
    ExitOnlyWhenConverged(s, c, order);
    assert s.idx == |s.queue| - 1;
  }
}
