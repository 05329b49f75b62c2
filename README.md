# Gotbook crawler bookkeeping, in Dafny

`scanner.py` crawls a book platform. It starts from a root author and a
list of known authors, fetches each author's "starred" and "owner" pages,
queues the authors of starred books, and keeps each author's own books in a
`bookcase`. When no author is left to scan, it ranks all books by star
count. This project models the sequential bookkeeping at the centre of that
program:

- `HasNextIterator`, the cursor the scheduler walks over the growing
  `scan_queue` (module `Iterator`, with `PyList`, the list shared by the
  crawler and the cursor);
- the state effects of `scan_author` on `scan_queue`, `blacklist` and
  `bookcase`, with each page's HTTP result as an input (modules `Books`,
  `Crawl`, `CrawlSteps`);
- the seed and the scheduler's `while True` loop as a state machine, where
  each event is one turn of the loop or one worker returning (modules
  `Crawl`, `CrawlSteps`, `CrawlInvariant`), and as the class
  `Crawler.Crawler`, whose methods update the fields in place;
- the ranking step of `gen_markdown`: flatten the bookcase, then sort it
  stably in descending order (module `Ranking`).

Python dicts keep insertion order, and assigning to an existing key keeps
that key's position. Module `Dicts` models a dict as its list of entries
with distinct keys. The ranking's tie order depends on this. Python sets
have no specified iteration order. Where the program extends a list by a set
(`scan_queue.extend(users)`, `scan_queue.extend(unhandle)`), the methods
enumerate the set with `Seqs.ListOfSet`. The specification functions take
the resulting order as an argument, and the lemmas require only that it lists
each element of the set once.

Two behaviours of the code are easy to misread:

- The page loop of `scan_author` does not break after a non-200 status.
  The owner page is still fetched after a failed starred page, and it can
  write `bookcase[name]` for an author who is blacklisted
  (`CrawlSteps.ScanBookcase`).
- The re-queue step removes every unresolved author from `scanning`,
  blacklisted or not. The queued copy of a blacklisted author is then
  skipped at submission (`CrawlSteps.RequeueUnhandled`,
  `CrawlSteps.SubmitOnlyNew`).

The cursor datatype `Iterator.Cursor` selects the program's `next`
(`AsWritten`) or the corrected one (`Corrected`); see Findings. A
`Crawler.Crawler` built with `AsWritten` behaves as the program does.

## Model

| member | source | states |
|---|---|---|
| `Dicts.Put` | scanner.py:154-160 | Assigning `d[k] = v` makes `k` map to `v`, leaves every other key's value as it was, and adds `k` to the key set. |
| `Dicts.PutKeyOrder` | scanner.py:154 | The assignment keeps the iteration order of the existing keys, and a new key goes to the end. |
| `Seqs.ListOfSet` | scanner.py:150-151 | Iterating a set (as `list.extend(a_set)` does) yields each element exactly once. |
| `Seqs.EnumerationSize` | scanner.py:208-209 | A list that enumerates a set has as many entries as the set has elements, so the re-queue appends exactly one entry per unhandled author. |
| `Iterator.PyIndex` | scanner.py:68 | Python's `xs[k]`: it succeeds exactly for `-len <= k < len`, and a negative index counts from the end. |
| `Iterator.HasNextAt` | scanner.py:66-71 | The definition of `has_next`: reading `_it[_idx + 1]` does not raise. `HasNextExactly` gives its closed form. |
| `Iterator.NextAt` | scanner.py:73-76 | The definition of `next`, returning the value read and the new `_idx`. It reads `_it[_idx]` (the program) or `_it[_idx + 1]` (corrected), then adds one to `_idx`; a read that raises leaves `_idx` alone. `NextAsWritten` and `NextCorrected` state what it returns. |
| `Iterator.HasNextExactly` | scanner.py:66-71 | `has_next` holds exactly when `_idx + 1 < len(_it)` (for `_idx >= -1`). |
| `Iterator.NextAsWritten` | scanner.py:73-76 | When `has_next` holds, `next` advances `_idx` by exactly one. From `_idx >= 0` it returns `_it[_idx]`, and on the first call it returns the last element. |
| `Iterator.NextCorrected` | scanner.py:66-76 | The corrected `next` returns exactly the element that `has_next` inspected, `_it[_idx + 1]`. |
| `Iterator.DrainAsWrittenFrom` | scanner.py:61-76 | Draining the program's cursor from `_idx >= 0` over a list that does not grow returns `_it[_idx : len - 1]`, so the last element is never returned. |
| `Iterator.DrainAsWritten` | scanner.py:61-76 | A fresh cursor returns the last element first, then every element except the last, in order. |
| `Iterator.DrainCorrected` | scanner.py:61-76 | The corrected cursor returns every element after `_idx`, in order. |
| `Iterator.HasNextIterator.constructor` | scanner.py:62-64 | The cursor shares the given list and starts at `_idx == -1`. |
| `Iterator.HasNextIterator.HasNext` | scanner.py:66-71 | `has_next` returns whether `_idx + 1 < len(_it)` and changes neither `_idx` nor the list. |
| `Iterator.HasNextIterator.Next` | scanner.py:73-76 | `next` reads the list through the shared reference, then moves `_idx` as `NextAt` says. The list is unchanged, and an IndexError leaves `_idx` alone. |
| `Iterator.PyList.Extend` | scanner.py:151 | `list.extend` appends in order and never shrinks the list. |
| `Books.Usernames` | scanner.py:150 | The set of book-author usernames on a starred page. `CrawlSteps.ScanQueue` proves that the queue grows by exactly one enumeration of it. |
| `Books.BuildShelf` | scanner.py:154-160 | The dict comprehension that builds the per-author shelf, adding the books in page order. `ShelfLastWins`, `ShelfTitles` and `ShelfRecordsMatch` state its contents. |
| `Books.ShelfLastWins` | scanner.py:154-160 | In the per-author dict, each title maps to the record of the last book with that title, and a title no book carries is absent. |
| `Books.ShelfTitles` | scanner.py:154-160 | The keys of the per-author dict are exactly the titles on the owner page. |
| `Books.ShelfRecordsMatch` | scanner.py:155-159 | Each stored record carries its own key as its title and the username of a book on the page as its author. |
| `Crawl.PageEffect` | scanner.py:144-176 | The effect of one page that answered: a starred 200 extends the queue, an owner 200 replaces `bookcase[name]`, and any other status blacklists `name`. |
| `Crawl.ScanPages` | scanner.py:141-182 | The page loop: each page that answers applies its effect, and an exception leaves the loop and skips the remaining pages. |
| `Crawl.ScanAuthorEffect` | scanner.py:139-182 | `scan_author(name)`: the page loop over the starred page, then the owner page. `ScanBlacklist`, `ScanQueue`, `ScanBookcase` and `ScanFrame` state its effects. |
| `CrawlSteps.ScanBlacklist` | scanner.py:141-182 | `name` joins `blacklist` exactly when a page that was reached answers a status other than 200. The owner page is reached after a starred failure too. An exception never blacklists, and no other author joins. |
| `CrawlSteps.ScanQueue` | scanner.py:147-151 | A starred 200 appends the distinct set of book-author usernames, one entry each. Nothing else changes `scan_queue`, and existing entries stay where they are. |
| `CrawlSteps.ScanBookcase` | scanner.py:153-160 | `bookcase[name]` becomes the shelf built from the owner page exactly when the owner page is reached and answers 200, even after a starred failure. Otherwise the bookcase is unchanged, and no other author's entry changes. |
| `CrawlSteps.ScanFrame` | scanner.py:177-182 | A scan leaves `scanning`, `futs` and the cursor alone. An exception on the starred page skips the owner page and changes nothing. |
| `Crawl.Unresolved` | scanner.py:189 | The list comprehension that keeps the known authors with no bookcase entry, in order. |
| `Crawl.Seed` | scanner.py:189-191 | The initial `scan_queue`: the unresolved known authors, then the root if it has no bookcase entry. |
| `Crawl.Init` | scanner.py:186-195 | The state before the loop: the seeded queue, the cursor at -1, and the loaded bookcase. The blacklist, `scanning` and `futs` start empty. |
| `CrawlSteps.UnresolvedMembers` | scanner.py:189 | The comprehension keeps exactly the known authors that are not keys of the bookcase. |
| `CrawlSteps.SeedMembers` | scanner.py:189-191 | The seed holds exactly the known authors and the root that are not yet in the bookcase. |
| `CrawlSteps.ResolvedCrawlExitsAtOnce` | scanner.py:186-206 | With every known author and the root already in the bookcase, the seed is empty and the first turn exits without changing anything. |
| `Crawl.LoopStep` | scanner.py:198-212 | One turn of the `while True` body. If `has_next` holds, it calls `next` and submits a new author. Otherwise, when all futures are done, it exits or re-queues; if some future is still running, it sleeps. `SubmitOnlyNew`, `ExitOnlyWhenConverged` and `RequeueUnhandled` state its cases. |
| `Crawl.CompleteFuture` | scanner.py:202 | A submitted scan finishing: the future becomes done and `scan_author` applies to its author. A missing or finished future changes nothing. |
| `CrawlSteps.OutstandingSubmit` | scanner.py:202 | Appending an unfinished future raises the count of outstanding futures by one. |
| `CrawlSteps.SubmitOnlyNew` | scanner.py:198-202 | A turn submits exactly when `next` yields an author in neither `scanning` nor `blacklist`. A submission adds that author to `scanning` and exactly one outstanding future for it. A cursor turn moves `_idx` by exactly one, leaves the queue, the blacklist and the bookcase alone, and leaves `scanning` alone when it submits nothing. A sleeping turn changes nothing. |
| `CrawlSteps.ExitOnlyWhenConverged` | scanner.py:203-206 | The loop exits exactly when the queue is exhausted, all futures are done and `scanning` is a subset of the bookcase keys. Exiting changes nothing. |
| `CrawlSteps.RequeueUnhandled` | scanner.py:207-210 | Otherwise, with every future done, exactly `scanning - bookcase` is appended to `scan_queue` and removed from `scanning`, which is then a subset of the bookcase keys. The bookcase, the blacklist and the futures are untouched. |
| `CrawlInvariant.InitInv` | scanner.py:186-195 | The state before the loop satisfies the invariant. |
| `CrawlInvariant.LoopStepInv` | scanner.py:197-212 | Every turn keeps the invariant: unfinished futures belong to authors in `scanning`, no two unfinished futures scan the same author, and each queue entry already handed out is in `scanning` or `blacklist`, or is queued again later. |
| `CrawlInvariant.CompleteFutureInv` | scanner.py:139-182 | A worker returning from `scan_author` keeps the invariant. |
| `CrawlInvariant.ExitResolves` | scanner.py:197-212 | When the loop exits, all futures are done, `scanning` is a subset of the bookcase keys, and every queued author is in the bookcase or blacklisted. With the program's cursor, copies of the last queue entry are the exception. |
| `CursorFinding.AsWrittenDropsLastDiscovery` | scanner.py:73-76 | With the program's cursor, seed `[captainvincent]`, and a starred page listing a book by `bob`, the loop exits with `bob` queued but never scanned, resolved or blacklisted. |
| `CursorFinding.CorrectedSubmitsLastDiscovery` | scanner.py:73-76 | With the corrected cursor, the same events submit `bob`. |
| `CursorFinding.CorrectedExitResolvesAll` | scanner.py:197-212 | With the corrected cursor, the loop exits only when every queued author is in the bookcase or blacklisted. |
| `Crawler.Crawler.constructor` | scanner.py:186-195 | The crawler starts with the seeded queue, a fresh cursor at -1, an empty blacklist, `scanning` and `futs`, and the loaded bookcase. |
| `Crawler.Crawler.ScanAuthor` | scanner.py:139-182 | The page loop updates the fields as `ScanAuthorEffect` prescribes, and the appended usernames enumerate the set of starred-book authors. |
| `Crawler.Crawler.Turn` | scanner.py:198-212 | One turn of the loop updates the fields and the cursor as `LoopStep` prescribes. A re-queue appends an enumeration of `scanning - bookcase`. |
| `Crawler.Crawler.WorkerReturns` | scanner.py:202 | A worker returning applies `scan_author` for its future's author and marks that future done. On a starred 200, the appended usernames enumerate the set of starred-book authors; otherwise nothing is appended. |
| `Crawler.Crawler.Run` | scanner.py:196-212 | The loop keeps the invariant over any sequence of turns and worker returns. If it exits, all futures are done, `scanning` is a subset of the bookcase keys, and the queued authors are resolved or blacklisted as `ExitResolves` says. |
| `Ranking.AllRecords` | scanner.py:99-101 | Every shelf's records, in bookcase order. `AllRecordsSize` and `Flatten` state its length and how the loop computes it. |
| `Ranking.AllRecordsSize` | scanner.py:99-101 | The flattened list holds one record per book over all authors. |
| `Ranking.Flatten` | scanner.py:99-101 | The extend loop yields every author's records, in bookcase order, each shelf in its own order. |
| `Ranking.SortDesc` | scanner.py:103 | An insertion sort used as the reference definition of `sorted(..., reverse=True)`. `SortPermutation`, `SortOrdered`, `SortStable` and `SortUnique` characterise it. |
| `Ranking.SortPermutation` | scanner.py:103 | The sorted ranking is a permutation of its input. |
| `Ranking.SortOrdered` | scanner.py:103 | The sorted ranking is non-increasing in the sort key. |
| `Ranking.SortStable` | scanner.py:103 | Records with equal keys keep their input order (`sorted` is stable, also with `reverse=True`). |
| `Ranking.SortUnique` | scanner.py:103 | Two non-increasing lists that agree on the records of every key are equal, so the three properties above determine the ranking. |
| `Ranking.Rank` | scanner.py:99-103 | The ranking is a permutation of all book records, as long as the total book count, non-increasing in the sort key, and in bookcase order among equal keys. |

## Left out

- HTTP fetching and JSON parsing (scanner.py:142-145) are not modelled. Each page is an input: a status with the parsed book list, or `Raised` for an exception. A `Raised` page changes no state; an exception in the middle of building the username set or the shelf also leaves no partial effect.
- The error-log appends and their timestamps (scanner.py:174-176, 180-182) are left out because they only write. The model takes every log write to succeed: if it raised after a non-200 page, `name` would be blacklisted and the owner page skipped.
- `save_dict` and `load_dict` (scanner.py:33-58) are left out. The loaded author list and bookcase are constructor arguments. Any value, including the empty result of a failed load, is allowed.
- `PythonObjectEncoder` and `as_python_object` (scanner.py:21-30) are not modelled: they wrap pickle and base64.
- Concurrency (scanner.py:196, 204, 212) is modelled only as a sequence of events. A scan's effects happen in one step when its worker returns, so a scan whose pages interleave with scheduler turns or with other scans is not modelled. The pool size of 20 and `time.sleep` do not affect the bookkeeping.
- Termination of the loop is not modelled. An author whose scan always raises is re-queued forever, so `Crawler.Crawler.Run` takes a finite list of events and reports whether the loop exited.
- The order in which a Python set yields its elements (scanner.py:150-151, 208-210) is left open: any order that lists each element once.
- The progress line (scanner.py:214), the Markdown table and README output (scanner.py:106-127), `download_all` (scanner.py:79-80) and the `axel` call (scanner.py:223) are left out: they are output only.
- `book['urls']` is an arbitrary JSON object in the program. The model keeps only the access link and the three download links that the renderer reads.
- The ranking models only the two numeric sort keys, stars and subscriptions. A missing or non-numeric key (which would raise) is not modelled.

## Findings

| source | as written | input that shows it | evidently intended | confidence | as-written member | corrected member |
|---|---|---|---|---|---|---|
| scanner.py:73-76 | `next` returns `_it[_idx]`, one entry behind the `_it[_idx + 1]` that `has_next` checked. The first call returns the list's last entry (`_it[-1]`). After that, the entry at the end of the list is handed out only once another entry is appended after it, so the loop can exit with that author unscanned. | The seed is `[captainvincent]`. Its starred page (status 200) lists one book by `bob`, and its owner page (status 200) is empty. Turn, worker returns, turn, turn: the loop exits with `bob` queued but not in `scanning`, the bookcase or the blacklist. | `next` returns `_it[_idx + 1]`, the entry `has_next` checked. The loop then exits only when every queued author is in the bookcase or blacklisted. | high; not executed | `CursorFinding.AsWrittenDropsLastDiscovery` | `CursorFinding.CorrectedExitResolvesAll` |
