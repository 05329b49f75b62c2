/** What one `scan_author` call and one turn of the scheduler loop do to the crawl state. */
module CrawlSteps {
  import opened Wrappers
  import opened Seqs
  import opened Dicts
  import opened Iterator
  import opened Books
  import opened Crawl

  /** A page that was fetched and answered with a status other than 200. */
  predicate Rejected(p: Page)
  {
    p.Response? && p.status != 200
  }

  /** The page answered 200 and was parsed. */
  predicate Accepted(p: Page)
  {
    p.Response? && p.status == 200
  }

  /** The page loop of `scan_author` written out for its two pages. */
  lemma ScanUnfold(s: State, name: AuthorId, starred: Page, owner: Page, order: seq<AuthorId>)
    ensures ScanAuthorEffect(s, name, starred, owner, order) ==
              match starred
              case Raised => s
              case Response(st, sb) =>
                var s1 := PageEffect(s, name, Starred, st, sb, order);
                match owner
                case Raised => s1
                case Response(ot, ob) => PageEffect(s1, name, Owner, ot, ob, order)
  {
    var pages := PageOrder(starred, owner);
    assert pages[1..] == [(Owner, owner)];
    match starred
    case Raised =>
    case Response(st, sb) =>
      var s1 := PageEffect(s, name, Starred, st, sb, order);
      assert ScanAuthorEffect(s, name, starred, owner, order) == ScanPages(s1, name, [(Owner, owner)], order);
      match owner
      case Raised =>
      case Response(ot, ob) =>
        var one: seq<(PageKind, Page)> := [(Owner, owner)];
        assert one[1..] == [];
        assert ScanPages(s1, name, one, order) == ScanPages(PageEffect(s1, name, Owner, ot, ob, order), name, [], order);
  }

  /**
   * `name` is blacklisted exactly when a page that was reached answered with a
   * status other than 200. The owner page is reached whenever the starred page
   * did not raise, also after a starred failure; an exception never
   * blacklists. No other author joins the blacklist.
   */
  lemma ScanBlacklist(s: State, name: AuthorId, starred: Page, owner: Page, order: seq<AuthorId>)
    ensures ScanAuthorEffect(s, name, starred, owner, order).blacklist ==
              s.blacklist + if Rejected(starred) || (!starred.Raised? && Rejected(owner)) then {name} else {}
  {
    ScanUnfold(s, name, starred, owner, order);
  }

  /**
   * A starred 200 appends the page's distinct usernames to the queue and
   * nothing else changes the queue: existing entries stay where they were.
   */
  lemma ScanQueue(s: State, name: AuthorId, starred: Page, owner: Page, order: seq<AuthorId>)
    ensures var r := ScanAuthorEffect(s, name, starred, owner, order);
            && r.queue == s.queue + (if Accepted(starred) then order else [])
            && (Accepted(starred) && Enumerates(order, Usernames(starred.books)) ==>
                  && Elements(r.queue[|s.queue|..]) == Usernames(starred.books)
                  && NoDuplicates(r.queue[|s.queue|..])
                  && |r.queue| == |s.queue| + |Usernames(starred.books)|)
  {
    ScanUnfold(s, name, starred, owner, order);
    var r := ScanAuthorEffect(s, name, starred, owner, order);
    if Accepted(starred) && Enumerates(order, Usernames(starred.books)) {
      assert r.queue[|s.queue|..] == order;
      EnumerationSize(order, Usernames(starred.books));
    }
  }

  /**
   * `bookcase[name]` becomes the shelf built from the owner page exactly when
   * the owner page is reached and answers 200, even after a starred failure;
   * otherwise the bookcase is untouched. No other author's entry changes.
   */
  lemma ScanBookcase(s: State, name: AuthorId, starred: Page, owner: Page, order: seq<AuthorId>)
    ensures var r := ScanAuthorEffect(s, name, starred, owner, order);
            && (!starred.Raised? && Accepted(owner) ==> Get(r.bookcase, name) == Some(BuildShelf(owner.books)))
            && (starred.Raised? || !Accepted(owner) ==> r.bookcase == s.bookcase)
            && (forall a :: a != name ==> Get(r.bookcase, a) == Get(s.bookcase, a))
  {
    ScanUnfold(s, name, starred, owner, order);
  }

  /** A scan never touches the scheduler's own state, and a starred exception changes nothing at all. */
  lemma ScanFrame(s: State, name: AuthorId, starred: Page, owner: Page, order: seq<AuthorId>)
    ensures var r := ScanAuthorEffect(s, name, starred, owner, order);
            && r.idx == s.idx && r.scanning == s.scanning && r.futs == s.futs
            && (starred.Raised? ==> r == s)
  {
    ScanUnfold(s, name, starred, owner, order);
  }

  /** Every author of the seed is unresolved, and every unresolved known author and the unresolved root are seeded. */
  lemma {:induction false} UnresolvedMembers(authors: seq<AuthorId>, bookcase: Bookcase)
    ensures forall x :: x in Unresolved(authors, bookcase) <==> x in authors && x !in KeySet(bookcase)
  {
    if authors != [] {
      UnresolvedMembers(authors[1..], bookcase);
      assert forall x :: x in authors <==> x == authors[0] || x in authors[1..];
    }
  }

  lemma SeedMembers(authors: seq<AuthorId>, bookcase: Bookcase)
    ensures forall x :: x in Seed(authors, bookcase) <==> (x in authors || x == ROOT) && x !in KeySet(bookcase)
  {
    UnresolvedMembers(authors, bookcase);
  }

  /**
   * Re-running against a bookcase that already holds every known author and
   * the root seeds nothing, and the loop's first turn exits without changing
   * anything.
   */
  lemma ResolvedCrawlExitsAtOnce(authors: seq<AuthorId>, bookcase: Bookcase, c: Cursor)
    requires ROOT in KeySet(bookcase)
    requires forall a :: a in authors ==> a in KeySet(bookcase)
    ensures Seed(authors, bookcase) == []
    ensures LoopStep(Init(authors, bookcase), c, []) == Step(Init(authors, bookcase), true)
  {
    UnresolvedMembers(authors, bookcase);
    if Unresolved(authors, bookcase) != [] {
      assert Unresolved(authors, bookcase)[0] in Unresolved(authors, bookcase);
    }
  }

  /** The author the turn's `next` would return, when `has_next` holds. */
  function Candidate(s: State, c: Cursor): Option<AuthorId>
  {
    if HasNextAt(s.queue, s.idx) then NextAt(s.queue, s.idx, c).0 else None
  }

  lemma {:induction false} OutstandingSubmit(futs: seq<Future>, a: AuthorId)
    ensures Outstanding(futs + [Future(a, false)]) == Outstanding(futs) + 1
  {
    assert (futs + [Future(a, false)])[..|futs|] == futs;
  }

  /**
   * A turn submits a scan exactly when `next` yields an author that is neither
   * in `scanning` nor blacklisted; a submission adds that author to
   * `scanning` and exactly one outstanding future for it. A turn that
   * advances the cursor moves `_idx` by one and touches neither the queue,
   * the blacklist nor the bookcase, and leaves `scanning` alone unless it
   * submits; a turn that sleeps changes nothing.
   */
  lemma SubmitOnlyNew(s: State, c: Cursor, order: seq<AuthorId>)
    requires -1 <= s.idx
    ensures var r := LoopStep(s, c, order).state;
            var a := Candidate(s, c);
            && (r.futs != s.futs <==> a.Some? && a.value !in s.scanning && a.value !in s.blacklist)
            && (r.futs != s.futs ==>
                  && r.futs == s.futs + [Future(a.value, false)]
                  && r.scanning == s.scanning + {a.value}
                  && Outstanding(r.futs) == Outstanding(s.futs) + 1)
    ensures var r := LoopStep(s, c, order).state;
            HasNextAt(s.queue, s.idx) ==>
              && r.queue == s.queue && r.blacklist == s.blacklist && r.bookcase == s.bookcase
              && r.idx == s.idx + 1
              && (r.futs == s.futs ==> r.scanning == s.scanning)
    ensures !HasNextAt(s.queue, s.idx) && !AllDone(s.futs) ==> LoopStep(s, c, order).state == s
  {
    var a := Candidate(s, c);
    if a.Some? {
      OutstandingSubmit(s.futs, a.value);
    }
  }

  /**
   * The loop exits only when the frontier is exhausted, every future is done
   * and every author in `scanning` has a bookcase entry; exiting changes
   * nothing.
   */
  lemma ExitOnlyWhenConverged(s: State, c: Cursor, order: seq<AuthorId>)
    ensures LoopStep(s, c, order).exited <==> !HasNextAt(s.queue, s.idx) && AllDone(s.futs) && s.scanning <= KeySet(s.bookcase)
    ensures LoopStep(s, c, order).exited ==> LoopStep(s, c, order).state == s
  {
  }

  /**
   * When the frontier is exhausted and every future is done but some author
   * in `scanning` has no bookcase entry, the turn appends exactly those
   * authors to the queue and drops them from `scanning`, after which
   * `scanning` lies within the bookcase.
   */
  lemma RequeueUnhandled(s: State, c: Cursor, order: seq<AuthorId>)
    requires !HasNextAt(s.queue, s.idx) && AllDone(s.futs) && !(s.scanning <= KeySet(s.bookcase))
    requires Enumerates(order, Unhandled(s))
    ensures var r := LoopStep(s, c, order);
            && !r.exited
            && r.state.queue == s.queue + order
            && |order| == |s.scanning - KeySet(s.bookcase)|
            && r.state.scanning == s.scanning * KeySet(s.bookcase)
            && r.state.scanning <= KeySet(r.state.bookcase)
            && r.state.bookcase == s.bookcase && r.state.blacklist == s.blacklist && r.state.futs == s.futs
  {
    EnumerationSize(order, Unhandled(s));
  }
}
