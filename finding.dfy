/**
 * The cursor's `next` returns `_it[_idx]` where its `has_next` inspects
 * `_it[_idx + 1]`. When the loop stops, the last queued author may never have
 * been handed to the scheduler. The same crawl with the corrected cursor
 * submits that author.
 */
module CursorFinding {
  import opened Dicts
  import opened Iterator
  import opened Books
  import opened Crawl
  import opened CrawlInvariant

  /** The root stars one book, by "bob", and owns none. */
  function BobBook(): RawBook
  {
    RawBook("bob", "X", Urls("", "", "", ""), 5, 1)
  }

  /** The first three events of the crawl: a turn, the root's scan finishing, a turn. */
  function ScenarioState(c: Cursor): State
  {
    var s1 := LoopStep(Init([], []), c, []).state;
    var s2 := CompleteFuture(s1, 0, Response(200, [BobBook()]), Response(200, []), ["bob"]);
    LoopStep(s2, c, []).state
  }

  /**
   * With the program's cursor the loop exits after these events although
   * "bob" is queued and was never scanned, resolved or blacklisted.
   */
  lemma AsWrittenDropsLastDiscovery()
    ensures var s := ScenarioState(AsWritten);
            && LoopStep(s, AsWritten, []).exited
            && "bob" in s.queue
            && "bob" !in s.scanning && "bob" !in KeySet(s.bookcase) && "bob" !in s.blacklist
  {
    var s0 := Init([], []);
    assert s0.queue == [ROOT];
    var s1 := LoopStep(s0, AsWritten, []).state;
    assert s1.futs == [Future(ROOT, false)] && s1.idx == 0;
    var s2 := CompleteFuture(s1, 0, Response(200, [BobBook()]), Response(200, []), ["bob"]);
    CrawlSteps.ScanUnfold(s1.(futs := [Future(ROOT, true)]), ROOT, Response(200, [BobBook()]), Response(200, []), ["bob"]);
    assert s2.queue == [ROOT, "bob"] && s2.idx == 0 && s2.scanning == {ROOT};
    assert s2.bookcase == [(ROOT, [])];
    var s3 := LoopStep(s2, AsWritten, []).state;
    assert s3.idx == 1 && s3 == s2.(idx := 1);
    assert KeySet(s3.bookcase) == {ROOT};
  }

  /** With the corrected cursor the same events leave the crawl running with "bob" submitted. */
  lemma CorrectedSubmitsLastDiscovery()
    ensures var s := ScenarioState(Corrected);
            && "bob" in s.scanning
            && s.futs == [Future(ROOT, true), Future("bob", false)]
  {
    var s0 := Init([], []);
    assert s0.queue == [ROOT];
    var s1 := LoopStep(s0, Corrected, []).state;
    assert s1.futs == [Future(ROOT, false)] && s1.idx == 0;
    var s2 := CompleteFuture(s1, 0, Response(200, [BobBook()]), Response(200, []), ["bob"]);
    CrawlSteps.ScanUnfold(s1.(futs := [Future(ROOT, true)]), ROOT, Response(200, [BobBook()]), Response(200, []), ["bob"]);
    assert s2.queue == [ROOT, "bob"] && s2.idx == 0 && s2.scanning == {ROOT};
  }

  /**
   * With the corrected cursor the loop exits only when every queued author
   * has a bookcase entry or is blacklisted.
   */
  lemma CorrectedExitResolvesAll(s: State, order: seq<AuthorId>)
    requires Inv(s, Corrected)
    requires LoopStep(s, Corrected, order).exited
    ensures forall a :: a in s.queue ==> a in KeySet(s.bookcase) || a in s.blacklist
  {
    ExitResolves(s, Corrected, order);
  }
}
