/** The shared book state of the client (client/src/context/BookContext.jsx):
    the cached list of books, the filters and page the list was fetched
    with, and the changes each request makes to them when it succeeds or
    fails. Request outcomes are parameters. */
module BookContext {
  import opened Wrappers
  import opened BookModel
  import ListOps

  const PageSize: nat := 12
  const FetchBooksFailed: string := "Failed to fetch books"
  const FetchBookFailed: string := "Failed to fetch book"
  const CreateBookFailed: string := "Failed to create book"
  const UpdateBookFailed: string := "Failed to update book"
  const DeleteBookFailed: string := "Failed to delete book"

  datatype Filters = Filters(genre: string, search: string, sort: string)

  const DefaultFilters: Filters := Filters("", "", "-createdAt")

  /** The query of a list request: the filters, the page and a limit of 12. */
  datatype FetchParams = FetchParams(genre: string, search: string, sort: string, page: int, limit: nat)

  function ParamsFor(f: Filters, page: int): (q: FetchParams)
    ensures q.genre == f.genre && q.search == f.search && q.sort == f.sort
    ensures q.page == page && q.limit == PageSize
  {
    FetchParams(f.genre, f.search, f.sort, page, PageSize)
  }

  /** A list response, or a failure with the server's message (`""` when
      there is none). */
  datatype ListResponse = BookPage(books: seq<Book>, currentPage: int, totalPages: int) | ListFailed(message: string)

  /** A response carrying one book, or a failure. */
  datatype BookResponse = Received(book: Book) | Failed(message: string)

  /** Matches the books with the given id. */
  function HasId(id: Id): Book -> bool {
    (b: Book) => b.id == id
  }

  /** The list after an update: every book with the id is replaced by the
      server's copy, and the length and the other books are unchanged. */
  function Replaced(books: seq<Book>, id: Id, copy: Book): (r: seq<Book>)
    ensures |r| == |books|
    ensures forall i :: 0 <= i < |books| ==> r[i] == if books[i].id == id then copy else books[i]
  {
    ListOps.MapWhere(books, HasId(id), _ => copy)
  }

  /** Removing a book that was just created, or just updated to keep its id,
      leaves what removing it from the earlier list leaves; when the created
      book's id was new to the list, the delete restores that list exactly. */
  lemma DeleteUndoesCreateAndUpdate(books: seq<Book>, created: Book, id: Id, copy: Book)
    requires copy.id == id
    ensures (forall i :: 0 <= i < |books| ==> books[i].id != created.id) ==>
      ListOps.RemoveWhere([created] + books, HasId(created.id)) == books
    ensures ListOps.RemoveWhere([created] + books, HasId(created.id)) == ListOps.RemoveWhere(books, HasId(created.id))
    ensures ListOps.RemoveWhere(Replaced(books, id, copy), HasId(id)) == ListOps.RemoveWhere(books, HasId(id))
  {
    ListOps.RemoveWherePrepended(created, books, HasId(created.id));
    if forall i :: 0 <= i < |books| ==> books[i].id != created.id {
      ListOps.RemoveWhereNone(books, HasId(created.id));
    }
    ListOps.RemoveAfterMapWhere(books, HasId(id), _ => copy);
  }

  class Provider {
    var books: seq<Book>
    var featuredBooks: seq<Book>
    var loading: bool
    var error: string
    var currentPage: int
    var totalPages: int
    var filters: Filters

    constructor ()
      ensures books == [] && featuredBooks == [] && !loading && error == ""
      ensures currentPage == 1 && totalPages == 1 && filters == DefaultFilters
    {
      books := [];
      featuredBooks := [];
      loading := false;
      error := "";
      currentPage := 1;
      totalPages := 1;
      filters := DefaultFilters;
    }

    /** `fetchBooks(page)`: the page of books replaces the cached list and
        the paging numbers; a failure only sets the error. Returns the query
        sent. */
    method FetchBooks(page: int, response: ListResponse) returns (sent: FetchParams)
      modifies this
      ensures sent == ParamsFor(filters, page)
      ensures filters == old(filters) && featuredBooks == old(featuredBooks) && !loading
      ensures response.BookPage? ==>
        books == response.books && currentPage == response.currentPage &&
        totalPages == response.totalPages && error == ""
      ensures response.ListFailed? ==>
        books == old(books) && currentPage == old(currentPage) && totalPages == old(totalPages) &&
        error == MessageOr(response.message, FetchBooksFailed)
    {
      loading := true;
      error := "";
      sent := ParamsFor(filters, page);
      match response {
        case BookPage(bs, cp, tp) =>
          books := bs;
          currentPage := cp;
          totalPages := tp;
        case ListFailed(message) =>
          error := MessageOr(message, FetchBooksFailed);
      }
      loading := false;
    }

    /** `fetchFeaturedBooks`: a failure leaves the featured list as it was. */
    method FetchFeaturedBooks(response: Option<seq<Book>>)
      modifies this
      ensures featuredBooks == (if response.Some? then response.value else old(featuredBooks))
      ensures books == old(books) && filters == old(filters) && loading == old(loading) && error == old(error)
      ensures currentPage == old(currentPage) && totalPages == old(totalPages)
    {
      if response.Some? {
        featuredBooks := response.value;
      }
    }

    /** `searchBooks`, `filterByGenre`, `sortBooks`: each sets only its own
        filter and goes back to page 1. */
    method SearchBooks(query: string)
      modifies this
      ensures filters == old(filters).(search := query) && currentPage == 1
      ensures books == old(books) && featuredBooks == old(featuredBooks) && totalPages == old(totalPages)
      ensures loading == old(loading) && error == old(error)
    {
      filters := filters.(search := query);
      currentPage := 1;
    }

    method FilterByGenre(genre: string)
      modifies this
      ensures filters == old(filters).(genre := genre) && currentPage == 1
      ensures books == old(books) && featuredBooks == old(featuredBooks) && totalPages == old(totalPages)
      ensures loading == old(loading) && error == old(error)
    {
      filters := filters.(genre := genre);
      currentPage := 1;
    }

    method SortBooks(sortBy: string)
      modifies this
      ensures filters == old(filters).(sort := sortBy) && currentPage == 1
      ensures books == old(books) && featuredBooks == old(featuredBooks) && totalPages == old(totalPages)
      ensures loading == old(loading) && error == old(error)
    {
      filters := filters.(sort := sortBy);
      currentPage := 1;
    }

    /** `clearFilters`: back to no genre, no search, newest first, page 1. */
    method ClearFilters()
      modifies this
      ensures filters == DefaultFilters && currentPage == 1
      ensures books == old(books) && featuredBooks == old(featuredBooks) && totalPages == old(totalPages)
      ensures loading == old(loading) && error == old(error)
    {
      filters := DefaultFilters;
      currentPage := 1;
    }

    /** `loadMore`: the next page is fetched only while there is one, and it
        replaces the cached list rather than extending it. */
    method LoadMore(response: ListResponse) returns (sent: Option<FetchParams>)
      modifies this
      ensures sent.Some? <==> old(currentPage) < old(totalPages)
      ensures sent.Some? ==> sent.value == ParamsFor(filters, old(currentPage) + 1)
      ensures sent.None? ==>
        books == old(books) && currentPage == old(currentPage) && totalPages == old(totalPages) &&
        loading == old(loading) && error == old(error)
      ensures sent.Some? && response.BookPage? ==>
        books == response.books && currentPage == response.currentPage &&
        totalPages == response.totalPages && error == "" && !loading
      ensures sent.Some? && response.ListFailed? ==>
        books == old(books) && currentPage == old(currentPage) && totalPages == old(totalPages) &&
        error == MessageOr(response.message, FetchBooksFailed) && !loading
      ensures filters == old(filters) && featuredBooks == old(featuredBooks)
    {
      if currentPage < totalPages {
        var q := FetchBooks(currentPage + 1, response);
        sent := Some(q);
      } else {
        sent := None;
      }
    }

    /** `getBook`: the list is untouched; a failure sets the error. */
    method GetBook(response: BookResponse) returns (book: Option<Book>)
      modifies this
      ensures book == (if response.Received? then Some(response.book) else None)
      ensures response.Failed? ==> error == MessageOr(response.message, FetchBookFailed)
      ensures response.Received? ==> error == old(error)
      ensures books == old(books) && featuredBooks == old(featuredBooks) && filters == old(filters)
      ensures currentPage == old(currentPage) && totalPages == old(totalPages) && !loading
    {
      loading := true;
      match response {
        case Received(b) =>
          book := Some(b);
        case Failed(message) =>
          error := MessageOr(message, FetchBookFailed);
          book := None;
      }
      loading := false;
    }

    /** `createBook`: the new book goes first; the rest of the list is
        unchanged. A failure leaves the list and sets the error. */
    method CreateBook(response: BookResponse) returns (created: Option<Book>)
      modifies this
      ensures response.Received? ==> books == [response.book] + old(books) && error == old(error)
      ensures response.Failed? ==> books == old(books) && error == MessageOr(response.message, CreateBookFailed)
      ensures created == (if response.Received? then Some(response.book) else None)
      ensures featuredBooks == old(featuredBooks) && filters == old(filters) && !loading
      ensures currentPage == old(currentPage) && totalPages == old(totalPages)
    {
      loading := true;
      match response {
        case Received(b) =>
          books := [b] + books;
          created := Some(b);
        case Failed(message) =>
          error := MessageOr(message, CreateBookFailed);
          created := None;
      }
      loading := false;
    }

    /** `updateBook`: every cached book with the id becomes the server's copy. */
    method UpdateBook(id: Id, response: BookResponse) returns (updated: Option<Book>)
      modifies this
      ensures response.Received? ==> books == Replaced(old(books), id, response.book) && error == old(error)
      ensures response.Failed? ==> books == old(books) && error == MessageOr(response.message, UpdateBookFailed)
      ensures updated == (if response.Received? then Some(response.book) else None)
      ensures featuredBooks == old(featuredBooks) && filters == old(filters) && !loading
      ensures currentPage == old(currentPage) && totalPages == old(totalPages)
    {
      loading := true;
      match response {
        case Received(b) =>
          books := Replaced(books, id, b);
          updated := Some(b);
        case Failed(message) =>
          error := MessageOr(message, UpdateBookFailed);
          updated := None;
      }
      loading := false;
    }

    /** `deleteBook`: every cached book with the id is dropped and the others
        keep their order. The failure message, if any, is a parameter. */
    method DeleteBook(id: Id, failure: Option<string>)
      modifies this
      ensures failure.None? ==> books == ListOps.RemoveWhere(old(books), HasId(id)) && error == old(error)
      ensures failure.Some? ==> books == old(books) && error == MessageOr(failure.value, DeleteBookFailed)
      ensures featuredBooks == old(featuredBooks) && filters == old(filters) && !loading
      ensures currentPage == old(currentPage) && totalPages == old(totalPages)
    {
      loading := true;
      if failure.None? {
        books := ListOps.RemoveWhere(books, HasId(id));
      } else {
        error := MessageOr(failure.value, DeleteBookFailed);
      }
      loading := false;
    }
  }
}
