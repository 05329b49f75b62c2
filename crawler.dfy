/**
 * The crawler's globals and its scheduler loop (scanner.py:139-212) as an
 * object: `scan_author` and one turn of the `while True` body are methods
 * that update the fields in place, each proved against the state machine of
 * module Crawl.
 */
module Crawler {
  import opened Wrappers
  import opened Seqs
  import opened Dicts
  import opened Iterator
  import opened Books
  import opened Crawl
  import opened CrawlSteps
  import opened CrawlInvariant

  /**
   * What happens next in a run: the scheduler takes a turn of its loop, or
   * the worker holding future `i` returns, its two pages having answered
   * `starred` and `owner`.
   */
  datatype Event = SchedulerTurn | WorkerReturns(i: nat, starred: Page, owner: Page)

  class Crawler {
    const cursor: Cursor
    /** `scan_queue`, the list `scan_itr` walks. */
    const scanQueue: PyList<AuthorId>
    const scanItr: HasNextIterator<AuthorId>
    var bookcase: Bookcase
    var blacklist: set<AuthorId>
    var scanning: set<AuthorId>
    var futs: seq<Future>

    ghost predicate Valid()
      reads this, scanItr
    {
      scanItr.it == scanQueue && scanItr.cursor == cursor && scanItr.Valid()
    }

    ghost function Abstract(): State
      reads this, scanQueue, scanItr
    {
      State(scanQueue.elems, scanItr.idx, scanning, blacklist, bookcase, futs)
    }

    /** The setup before the loop (scanner.py:186-195), from the loaded author list and bookcase. */
    constructor (authors: seq<AuthorId>, loaded: Bookcase, cursor: Cursor)
      ensures Valid() && this.cursor == cursor
      ensures Abstract() == Init(authors, loaded)
      ensures Inv(Abstract(), cursor)
      ensures fresh(scanQueue) && fresh(scanItr)
    {
      var queue := new PyList(Seed(authors, loaded));
      var itr := new HasNextIterator(queue, cursor);
      this.cursor := cursor;
      scanQueue := queue;
      scanItr := itr;
      bookcase := loaded;
      blacklist := {};
      scanning := {};
      futs := [];
      new;
      InitInv(authors, loaded, cursor);
    }

    /**
     * `scan_author(name)` with the pages' results given. `discovered` is the
     * list of usernames appended to `scan_queue`, in the order the set yielded
     * them.
     */
    method ScanAuthor(name: AuthorId, starred: Page, owner: Page) returns (discovered: seq<AuthorId>)
      modifies this, scanQueue
      ensures Abstract() == ScanAuthorEffect(old(Abstract()), name, starred, owner, discovered)
      ensures Accepted(starred) ==> Enumerates(discovered, Usernames(starred.books))
      ensures !Accepted(starred) ==> discovered == []
    {
      var pages := PageOrder(starred, owner);
      discovered := [];
      var i := 0;
      while i < |pages|
        invariant 0 <= i <= |pages|
        invariant i == 0 ==> Abstract() == old(Abstract())
        invariant ScanPages(Abstract(), name, pages[i..], discovered) ==
                  ScanPages(old(Abstract()), name, pages, discovered)
        invariant Accepted(starred) && i >= 1 ==> Enumerates(discovered, Usernames(starred.books))
        invariant !(Accepted(starred) && i >= 1) ==> discovered == []
      {
        var (kind, page) := pages[i];
        match page {
          case Raised =>
            break;
          case Response(status, books) =>
            if status == 200 {
              if kind == Starred {
                discovered := ListOfSet(Usernames(books));
                scanQueue.Extend(discovered);
              } else {
                bookcase := Put(bookcase, name, BuildShelf(books));
              }
            } else {
              blacklist := blacklist + {name};
            }
        }
        i := i + 1;
      }
    }

    /**
     * One turn of the `while True` body. `requeued` lists the authors appended
     * to `scan_queue` when the turn re-queues, and is empty otherwise.
     */
    method Turn() returns (exited: bool, requeued: seq<AuthorId>)
      requires Valid()
      modifies this, scanQueue, scanItr
      ensures Valid()
      ensures LoopStep(old(Abstract()), cursor, requeued) == Step(Abstract(), exited)
      ensures !HasNextAt(old(Abstract()).queue, old(Abstract()).idx) && AllDone(old(futs)) ==> Enumerates(requeued, Unhandled(old(Abstract())))
    {
      exited, requeued := false, [];
      var more := scanItr.HasNext();
      if more {
        var v := scanItr.Next();
        assert v.Some?;
        var author := v.value;
        if author !in scanning && author !in blacklist {
          scanning := scanning + {author};
          futs := futs + [Future(author, false)];
        }
      } else if AllDone(futs) {
        if scanning <= KeySet(bookcase) {
          exited := true;
        } else {
          var unhandle := scanning - KeySet(bookcase);
          requeued := ListOfSet(unhandle);
          scanQueue.Extend(requeued);
          scanning := scanning - unhandle;
        }
      }
    }

    /** The worker holding future `i` runs `scan_author` for its author and returns. */
    method WorkerReturns(i: nat, starred: Page, owner: Page) returns (discovered: seq<AuthorId>)
      requires Valid()
      modifies this, scanQueue
      ensures Valid()
      ensures Abstract() == CompleteFuture(old(Abstract()), i, starred, owner, discovered)
      ensures i < |old(futs)| && !old(futs)[i].done && Accepted(starred) ==>
                Enumerates(discovered, Usernames(starred.books))
      ensures !(i < |old(futs)| && !old(futs)[i].done && Accepted(starred)) ==> discovered == []
    {
      discovered := [];
      if i < |futs| && !futs[i].done {
        var name := futs[i].author;
        futs := futs[i := Future(name, true)];
        discovered := ScanAuthor(name, starred, owner);
      }
    }

    /**
     * The loop driven by `events` until it exits or the events run out. It
     * keeps the invariant; when it exits, every future is done, `scanning`
     * lies within the bookcase and every queued author is resolved or
     * blacklisted, except, with the program's cursor, the queue's last entry.
     */
    method Run(events: seq<Event>) returns (exited: bool)
      requires Valid() && Inv(Abstract(), cursor)
      modifies this, scanQueue, scanItr
      ensures Valid() && Inv(Abstract(), cursor)
      ensures exited ==> AllDone(futs) && scanning <= KeySet(bookcase)
      ensures exited ==>
                forall k :: 0 <= k < |scanQueue.elems| ==>
                  || scanQueue.elems[k] in KeySet(bookcase)
                  || scanQueue.elems[k] in blacklist
                  || (cursor == AsWritten && scanQueue.elems[k] == scanQueue.elems[|scanQueue.elems| - 1])
    {
      exited := false;
      var n := 0;
      while n < |events| && !exited
        invariant 0 <= n <= |events|
        invariant Valid() && Inv(Abstract(), cursor)
        invariant exited ==> AllDone(futs) && scanning <= KeySet(bookcase)
        invariant exited ==>
                    forall k :: 0 <= k < |scanQueue.elems| ==>
                      || scanQueue.elems[k] in KeySet(bookcase)
                      || scanQueue.elems[k] in blacklist
                      || (cursor == AsWritten && scanQueue.elems[k] == scanQueue.elems[|scanQueue.elems| - 1])
        decreases |events| - n
      {
        ghost var before := Abstract();
        match events[n] {
          case SchedulerTurn =>
            var requeued;
            exited, requeued := Turn();
            LoopStepInv(before, cursor, requeued);
            if exited {
              ExitResolves(before, cursor, requeued);
            }
          case WorkerReturns(i, starred, owner) =>
            var discovered := WorkerReturns(i, starred, owner);
            CompleteFutureInv(before, cursor, i, starred, owner, discovered);
        }
        n := n + 1;
      }
    }
  }
}
