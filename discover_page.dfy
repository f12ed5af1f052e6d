/** The discover page (client/src/pages/Discover.jsx): what typing in the
    search box and picking a genre ask of the shared book state. */
module DiscoverPage {
  import BookContext

  /** What a search-box or genre change asks of the book state. */
  datatype Action = Search(query: string) | FilterGenre(genre: string) | Clear | Nothing

  /** `handleSearch`: a query longer than two characters is searched for, an
      emptied box clears the filters, and one or two characters do nothing
      yet. */
  function SearchAction(query: string): (a: Action)
    ensures a.Search? <==> |query| > 2
    ensures a.Search? ==> a.query == query
    ensures a.Clear? <==> |query| == 0
    ensures a.Nothing? <==> 1 <= |query| <= 2
  {
    if |query| > 2 then Search(query)
    else if |query| == 0 then Clear
    else Nothing
  }

  /** `handleGenreFilter`: a genre is filtered on, the empty choice ("All")
      clears the filters. */
  function GenreAction(genre: string): (a: Action)
    ensures a.FilterGenre? <==> genre != ""
    ensures a.FilterGenre? ==> a.genre == genre
    ensures a.Clear? <==> genre == ""
  {
    if genre != "" then FilterGenre(genre) else Clear
  }

  class Discover {
    const books: BookContext.Provider
    var searchQuery: string
    var selectedGenre: string

    constructor (books: BookContext.Provider)
      ensures this.books == books && searchQuery == "" && selectedGenre == ""
    {
      this.books := books;
      searchQuery := "";
      selectedGenre := "";
    }

    method Dispatch(a: Action)
      modifies books
      ensures a.Search? ==> books.filters == old(books.filters).(search := a.query) && books.currentPage == 1
      ensures a.FilterGenre? ==> books.filters == old(books.filters).(genre := a.genre) && books.currentPage == 1
      ensures a.Clear? ==> books.filters == BookContext.DefaultFilters && books.currentPage == 1
      ensures a.Nothing? ==> books.filters == old(books.filters) && books.currentPage == old(books.currentPage)
      ensures books.books == old(books.books) && books.featuredBooks == old(books.featuredBooks)
      ensures books.totalPages == old(books.totalPages)
      ensures books.loading == old(books.loading) && books.error == old(books.error)
    {
      match a {
        case Search(q) => books.SearchBooks(q);
        case FilterGenre(g) => books.FilterByGenre(g);
        case Clear => books.ClearFilters();
        case Nothing =>
      }
    }

    /** Typing in the search box: the box always shows the text, and the
        book state changes as `SearchAction` says. */
    method HandleSearch(query: string)
      modifies this, books
      ensures searchQuery == query && selectedGenre == old(selectedGenre)
      ensures |query| > 2 ==> books.filters == old(books.filters).(search := query) && books.currentPage == 1
      ensures |query| == 0 ==> books.filters == BookContext.DefaultFilters && books.currentPage == 1
      ensures 1 <= |query| <= 2 ==> books.filters == old(books.filters) && books.currentPage == old(books.currentPage)
      ensures books.books == old(books.books) && books.totalPages == old(books.totalPages)
    {
      searchQuery := query;
      Dispatch(SearchAction(query));
    }

    /** Picking a genre: the choice is always shown, and the book state
        changes as `GenreAction` says. */
    method HandleGenreFilter(genre: string)
      modifies this, books
      ensures selectedGenre == genre && searchQuery == old(searchQuery)
      ensures genre != "" ==> books.filters == old(books.filters).(genre := genre) && books.currentPage == 1
      ensures genre == "" ==> books.filters == BookContext.DefaultFilters && books.currentPage == 1
      ensures books.books == old(books.books) && books.totalPages == old(books.totalPages)
    {
      selectedGenre := genre;
      Dispatch(GenreAction(genre));
    }
  }
}
