/** The catalogue handlers: listing with genre and text filters, lookup,
    create, update, delete and the newest books
    (server/controllers/bookController.js). */
module BookController {
  import opened Wrappers
  import opened Text
  import opened ListOps
  import opened Query
  import opened BookModel
  import opened Store

  /** The query string of a listing; `genre` and `search` filter when truthy,
      `page` and `limit` fall back to 1 and 12 when absent. */
  datatype BookQuery = BookQuery(genre: string, search: string, page: Option<int>, limit: Option<int>)

  /** A case-insensitive occurrence of `search` in one of the three text fields. */
  predicate MatchesSearch(b: Book, search: string) {
    || Contains(ToLower(b.title), ToLower(search))
    || Contains(ToLower(b.author), ToLower(search))
    || Contains(ToLower(b.description), ToLower(search))
  }

  predicate BookMatches(b: Book, genre: string, search: string) {
    (genre == "" || genre in b.genres) && (search == "" || MatchesSearch(b, search))
  }

  function Matching(genre: string, search: string): Book -> bool {
    b => BookMatches(b, genre, search)
  }

  function CreatedAt(b: Book): int { b.createdAt }

  /** `getBooks`: the books of the genre whose title, author or description
      contains the search text, newest first, one page of them. */
  function ListBooks(bs: seq<Book>, q: BookQuery): (r: Result<Page<Book>>)
    ensures var page := q.page.GetOr(1); var limit := q.limit.GetOr(12);
      && (r.Err? <==> (page - 1) * limit < 0)
      && (r.Ok? ==>
            && r.value.total == |Select(bs, Matching(q.genre, q.search))|
            && r.value.totalPages == TotalPages(r.value.total, limit)
            && r.value.currentPage == page
            && (limit > 0 ==> |r.value.items| <= limit)
            && SortedDesc(r.value.items, CreatedAt)
            && (forall b :: b in r.value.items ==>
                  && b in bs
                  && (q.genre != "" ==> q.genre in b.genres)
                  && (q.search != "" ==> MatchesSearch(b, q.search))))
    ensures r.Ok? ==>
      Paginate(SortDesc(Select(bs, Matching(q.genre, q.search)), CreatedAt), q.page.GetOr(1), q.limit.GetOr(12))
        == Ok(r.value.items)
  {
    FindPage(bs, Matching(q.genre, q.search), CreatedAt, q.page.GetOr(1), q.limit.GetOr(12))
  }

  /** With no filter every book is a match, so the total is the catalogue size. */
  lemma UnfilteredTotal(bs: seq<Book>, page: Option<int>, limit: Option<int>)
    ensures var r := ListBooks(bs, BookQuery("", "", page, limit));
      r.Ok? ==> r.value.total == |bs|
  {
    SelectAll(bs, Matching("", ""));
  }

  function HasId(id: Id): Book -> bool {
    (b: Book) => b.id == id
  }

  /** `getBookById`. */
  function FindBook(bs: seq<Book>, id: Id): (r: Result<Book>)
    ensures r.Ok? ==> r.value in bs && r.value.id == id
    ensures r.Err? <==> forall b :: b in bs ==> b.id != id
    ensures r.Err? ==> r.error == HttpError(404, "Book not found")
  {
    match IndexWhere(bs, HasId(id))
    case None => Err(HttpError(404, "Book not found"))
    case Some(i) => Ok(bs[i])
  }

  const FeaturedCount: nat := 5

  /** `getFeaturedBooks`: the five newest books. */
  function FeaturedBooks(bs: seq<Book>): (r: seq<Book>)
    ensures |r| == if |bs| < FeaturedCount then |bs| else FeaturedCount
    ensures SortedDesc(r, CreatedAt)
    ensures multiset(r) <= multiset(bs)
    ensures r == SortDesc(bs, CreatedAt)[..|r|]
  {
    var sorted := SortDesc(bs, CreatedAt);
    var r := Take(sorted, FeaturedCount);
    assert r == sorted[..|r|];
    PrefixOutranksRest(sorted, CreatedAt, |r|);
    r
  }

  /** No book left out of the featured ones is newer than one shown. */
  lemma FeaturedAreNewest(bs: seq<Book>)
    ensures var r := FeaturedBooks(bs);
      exists rest: seq<Book> :: multiset(r) + multiset(rest) == multiset(bs) && Outranks(r, rest, CreatedAt)
  {
    TopOfSorted(bs, SortDesc(bs, CreatedAt), CreatedAt, FeaturedBooks(bs));
  }

  /** `createBook`: the document built from the body, refused with 400 and the
      first failing path's message when a required path is missing. */
  method CreateBook(db: Db, f: BookFields, id: Id, now: int) returns (r: Result<Book>)
    requires db.Valid()
    requires forall i :: 0 <= i < |db.books| ==> db.books[i].id != id
    modifies db
    ensures db.Valid()
    ensures db.reviews == old(db.reviews) && db.progress == old(db.progress) && db.users == old(db.users)
    ensures var b := NewBook(f, id, now);
      && (BookErrors(b).Some? ==> r == Err(HttpError(400, DocumentFailed("Book", BookErrors(b).value))) && db.books == old(db.books))
      && (BookErrors(b).None? ==> r == Ok(b) && ValidBook(b) && db.books == old(db.books) + [b])
  {
    var b := NewBook(f, id, now);
    match BookErrors(b)
    case Some(e) =>
      r := Err(HttpError(400, DocumentFailed("Book", e)));
    case None =>
      AddBook(db, b);
      r := Ok(b);
  }

  /** Appends a valid book with a new id to the store. */
  method AddBook(db: Db, b: Book)
    requires db.Valid() && ValidBook(b)
    requires forall i :: 0 <= i < |db.books| ==> db.books[i].id != b.id
    modifies db
    ensures db.Valid() && db.books == old(db.books) + [b]
    ensures db.reviews == old(db.reviews) && db.progress == old(db.progress) && db.users == old(db.users)
  {
    BooksAppend(db.books, b);
    db.books := db.books + [b];
  }

  /** `updateBook`: the update validators run on the supplied paths before
      the lookup, so a failing path is a 400 even for an unknown id; then 404
      for an unknown id; otherwise the supplied fields replace the stored
      ones. */
  method UpdateBook(db: Db, id: Id, f: BookFields, now: int) returns (r: Result<Book>)
    requires db.Valid()
    modifies db
    ensures db.Valid()
    ensures db.reviews == old(db.reviews) && db.progress == old(db.progress) && db.users == old(db.users)
    ensures FieldErrors(f).Some? ==> r == Err(HttpError(400, QueryFailed(FieldErrors(f).value))) && db.books == old(db.books)
    ensures FieldErrors(f).None? ==> var at := IndexWhere(old(db.books), HasId(id));
      && (at.None? ==> r == Err(HttpError(404, "Book not found")) && db.books == old(db.books))
      && (at.Some? ==>
            var b := ApplyFields(old(db.books)[at.value], f, now);
            && ValidBook(b) && r == Ok(b) && db.books == old(db.books)[at.value := b])
  {
    var errors := FieldErrors(f);
    if errors.Some? {
      return Err(HttpError(400, QueryFailed(errors.value)));
    }
    var at := IndexWhere(db.books, HasId(id));
    if at.None? {
      return Err(HttpError(404, "Book not found"));
    }
    var b := ApplyFields(db.books[at.value], f, now);
    FieldErrorsAgree(db.books[at.value], f, now);
    BooksReplace(db.books, at.value, b);
    db.books := db.books[at.value := b];
    r := Ok(b);
  }

  /** `deleteBook`: 404 for an unknown id; otherwise exactly that book goes.
      Its reviews and reading records stay. */
  method DeleteBook(db: Db, id: Id) returns (r: Result<string>)
    requires db.Valid()
    modifies db
    ensures db.Valid()
    ensures db.reviews == old(db.reviews) && db.progress == old(db.progress) && db.users == old(db.users)
    ensures var at := IndexWhere(old(db.books), HasId(id));
      && (at.None? ==> r == Err(HttpError(404, "Book not found")) && db.books == old(db.books))
      && (at.Some? ==> r == Ok("Book deleted") && db.books == RemoveAt(old(db.books), at.value))
    ensures forall b :: b in db.books ==> b.id != id
  {
    var at := IndexWhere(db.books, HasId(id));
    if at.None? {
      return Err(HttpError(404, "Book not found"));
    }
    db.books := RemoveAt(db.books, at.value);
    r := Ok("Book deleted");
  }
}
