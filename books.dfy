/**
 * The book data the scanner reads from an author's pages and the bookcase it
 * builds from them (scanner.py:139-160).
 */
module Books {
  import opened Wrappers
  import opened Dicts

  type AuthorId = string
  type Title = string

  /** `book['urls']`, copied into the record unchanged. */
  datatype Urls = Urls(access: string, mobi: string, epub: string, pdf: string)

  /**
   * One entry of a page's JSON book list, reduced to the fields the scanner
   * reads: `author.username`, `title`, `urls`, `counts.stars` and
   * `counts.subscriptions`.
   */
  datatype RawBook = RawBook(username: AuthorId, title: Title, urls: Urls, stars: int, subscriptions: int)

  /** The record the bookcase keeps for one book. */
  datatype Record = Record(author: AuthorId, title: Title, urls: Urls, stars: int, subscriptions: int)

  /** One author's books, keyed by title. */
  type Shelf = Dict<Title, Record>

  /** `bookcase`: author name to shelf, in insertion order. */
  type Bookcase = Dict<AuthorId, Shelf>

  function ToRecord(b: RawBook): Record
  {
    Record(b.username, b.title, b.urls, b.stars, b.subscriptions)
  }

  /** `set(book['author']['username'] for book in books)`. */
  function Usernames(books: seq<RawBook>): set<AuthorId>
  {
    set b | b in books :: b.username
  }

  /** The dict comprehension `{book['title']: {...} for book in books}`, evaluated left to right. */
  function BuildShelf(books: seq<RawBook>): Shelf
  {
    if books == [] then []
    else
      var last := books[|books| - 1];
      Put(BuildShelf(books[..|books| - 1]), last.title, ToRecord(last))
  }

  /** The position of the last book titled `t`, or -1 when there is none. */
  function LastWithTitle(books: seq<RawBook>, t: Title): (i: int)
    ensures -1 <= i < |books|
    ensures i >= 0 ==> books[i].title == t
    ensures forall j :: i < j < |books| ==> books[j].title != t
  {
    if books == [] then -1
    else if books[|books| - 1].title == t then |books| - 1
    else LastWithTitle(books[..|books| - 1], t)
  }

  /**
   * A shelf holds, under each title, the record of the LAST book with that
   * title on the page, and nothing under a title no book carries.
   */
  lemma {:induction false} ShelfLastWins(books: seq<RawBook>, t: Title)
    ensures Get(BuildShelf(books), t) ==
              if LastWithTitle(books, t) < 0 then None
              else Some(ToRecord(books[LastWithTitle(books, t)]))
  {
    if books != [] {
      ShelfLastWins(books[..|books| - 1], t);
    }
  }

  /** A shelf's keys are exactly the titles on the page. */
  lemma {:induction false} ShelfTitles(books: seq<RawBook>)
    ensures KeySet(BuildShelf(books)) == set b | b in books :: b.title
  {
    if books != [] {
      var init := books[..|books| - 1];
      ShelfTitles(init);
      assert books == init + [books[|books| - 1]];
    }
  }

  /** Every record sits under its own title and names the book's author. */
  lemma {:induction false} ShelfRecordsMatch(books: seq<RawBook>, t: Title)
    requires Get(BuildShelf(books), t).Some?
    ensures Get(BuildShelf(books), t).value.title == t
    ensures exists b :: b in books && Get(BuildShelf(books), t).value.author == b.username
  {
    ShelfLastWins(books, t);
  }
}
