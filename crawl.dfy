/**
 * The crawl's bookkeeping (scanner.py:139-212) as a sequential state machine.
 * The HTTP fetches become page inputs, the thread pool becomes explicit
 * events: one turn of the scheduler's `while True` body (LoopStep) or one
 * worker finishing a submitted scan (CompleteFuture).
 */
module Crawl {
  import opened Wrappers
  import opened Dicts
  import opened Iterator
  import opened Books

  /** The author the crawl always starts from. */
  const ROOT: AuthorId := "captainvincent"

  datatype PageKind = Starred | Owner

  /**
   * What fetching one page of an author gives: an HTTP status with, when the
   * status is 200, the parsed book list; or an exception anywhere in the
   * fetch, the parse or the reading of a book's fields (`Raised`), which
   * happens before the page changes any state.
   */
  datatype Page = Response(status: int, books: seq<RawBook>) | Raised

  /** A submitted scan of `author`; `done` once the worker has returned. */
  datatype Future = Future(author: AuthorId, done: bool)

  /**
   * The globals `scan_queue`, `blacklist`, `bookcase` and the scheduler's
   * `scanning`, `futs` and `scan_itr._idx`.
   */
  datatype State = State(
    queue: seq<AuthorId>,
    idx: int,
    scanning: set<AuthorId>,
    blacklist: set<AuthorId>,
    bookcase: Bookcase,
    futs: seq<Future>)

  /** The seed (scanner.py:189-191): known authors not yet in the bookcase, then the root if it is not. */
  function Seed(authors: seq<AuthorId>, bookcase: Bookcase): seq<AuthorId>
  {
    Unresolved(authors, bookcase) + if ROOT in KeySet(bookcase) then [] else [ROOT]
  }

  /** `[author for author in authors if author not in bookcase]`. */
  function Unresolved(authors: seq<AuthorId>, bookcase: Bookcase): seq<AuthorId>
  {
    if authors == [] then []
    else (if authors[0] in KeySet(bookcase) then [] else [authors[0]]) + Unresolved(authors[1..], bookcase)
  }

  /** The state before the scheduler's loop (scanner.py:186-195); the blacklist starts empty. */
  function Init(authors: seq<AuthorId>, bookcase: Bookcase): State
  {
    State(Seed(authors, bookcase), -1, {}, {}, bookcase, [])
  }

  /**
   * One page of `scan_author(name)` that answered (scanner.py:144-176): a
   * starred 200 extends the queue with the page's usernames, listed in the
   * order `order` the set yields them; an owner 200 replaces `bookcase[name]`;
   * any other status blacklists `name`.
   */
  function PageEffect(s: State, name: AuthorId, kind: PageKind, status: int, books: seq<RawBook>,
                      order: seq<AuthorId>): State
  {
    if status == 200 then
      match kind
      case Starred => s.(queue := s.queue + order)
      case Owner => s.(bookcase := Put(s.bookcase, name, BuildShelf(books)))
    else s.(blacklist := s.blacklist + {name})
  }

  /** The page loop of `scan_author`: an exception leaves the loop and skips the remaining pages. */
  function ScanPages(s: State, name: AuthorId, pages: seq<(PageKind, Page)>, order: seq<AuthorId>): State
    decreases |pages|
  {
    if pages == [] then s
    else
      match pages[0].1
      case Raised => s
      case Response(status, books) =>
        ScanPages(PageEffect(s, name, pages[0].0, status, books, order), name, pages[1..], order)
  }

  /** The pages `scan_author` visits, in order. */
  function PageOrder(starred: Page, owner: Page): seq<(PageKind, Page)>
  {
    [(Starred, starred), (Owner, owner)]
  }

  /** The state effect of `scan_author(name)` (scanner.py:139-182). */
  function ScanAuthorEffect(s: State, name: AuthorId, starred: Page, owner: Page, order: seq<AuthorId>): State
  {
    ScanPages(s, name, PageOrder(starred, owner), order)
  }

  /** The result of one turn of the scheduler loop. */
  datatype Step = Step(state: State, exited: bool)

  /** `all(fut.done() for fut in futs)`. */
  predicate AllDone(futs: seq<Future>)
  {
    forall i :: 0 <= i < |futs| ==> futs[i].done
  }

  /** `scanning.difference(bookcase)`. */
  function Unhandled(s: State): set<AuthorId>
  {
    s.scanning - KeySet(s.bookcase)
  }

  /**
   * One turn of the `while True` body (scanner.py:198-212), with cursor `c`.
   * `order` is the order in which the set `Unhandled(s)` is appended to the
   * queue when the turn re-queues.
   */
  function LoopStep(s: State, c: Cursor, order: seq<AuthorId>): Step
  {
    if HasNextAt(s.queue, s.idx) then
      var (v, idx) := NextAt(s.queue, s.idx, c);
      match v
      case None =>
        // the IndexError `next` would raise; ruled out while `_idx >= -1`
        Step(s, false)
      case Some(author) =>
        if author !in s.scanning && author !in s.blacklist then
          Step(s.(idx := idx, scanning := s.scanning + {author}, futs := s.futs + [Future(author, false)]), false)
        else
          Step(s.(idx := idx), false)
    else if AllDone(s.futs) then
      if s.scanning <= KeySet(s.bookcase) then Step(s, true)
      else Step(s.(queue := s.queue + order, scanning := s.scanning - Unhandled(s)), false)
    else
      // `time.sleep(1)`
      Step(s, false)
  }

  /**
   * Worker `i` finishes: `scan_author` runs for its author with the given page
   * results and the future becomes done. A future that does not exist or is
   * already done leaves the state alone.
   */
  function CompleteFuture(s: State, i: nat, starred: Page, owner: Page, order: seq<AuthorId>): State
  {
    if i < |s.futs| && !s.futs[i].done then
      var name := s.futs[i].author;
      ScanAuthorEffect(s.(futs := s.futs[i := Future(name, true)]), name, starred, owner, order)
    else s
  }

  /** The number of submitted futures that are not done. */
  function Outstanding(futs: seq<Future>): nat
  {
    if futs == [] then 0
    else (if futs[|futs| - 1].done then 0 else 1) + Outstanding(futs[..|futs| - 1])
  }
}
