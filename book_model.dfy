/** The book record of the catalogue: its fields, defaults and the schema's
    required/trim rules (server/models/Book.js). */
module BookModel {
  import opened Wrappers
  import opened Text

  type Id = string

  /** A stored book. `createdAt`/`updatedAt` are the schema's timestamps, in milliseconds. */
  datatype Book = Book(
    id: Id,
    title: string,
    author: string,
    description: string,
    coverImage: string,
    genres: seq<string>,
    pages: int,
    publishedYear: Option<int>,
    language: string,
    publisher: Option<string>,
    isbn: Option<string>,
    averageRating: real,
    totalReviews: int,
    content: Option<string>,
    ebookUrl: Option<string>,
    createdAt: int,
    updatedAt: int)

  /** The paths of a request body; `None` is a path the body leaves out. The
      handlers hand the whole body to Mongoose, so the rating summary can be
      supplied too. */
  datatype BookFields = BookFields(
    title: Option<string>,
    author: Option<string>,
    description: Option<string>,
    coverImage: Option<string>,
    genres: Option<seq<string>>,
    pages: Option<int>,
    publishedYear: Option<int>,
    language: Option<string>,
    publisher: Option<string>,
    isbn: Option<string>,
    content: Option<string>,
    ebookUrl: Option<string>,
    averageRating: Option<real>,
    totalReviews: Option<int>)

  /** A required string passes Mongoose's required check when it is non-empty. */
  predicate Present(s: string) { s != "" }

  /** The schema's validity: trimmed, non-empty title and author, a description,
      and no empty genre entry. */
  predicate ValidBook(b: Book) {
    Trimmed(b) && RequiredPresent(b)
  }

  /** The stored title and author went through the trim setter. */
  predicate Trimmed(b: Book) {
    IsTrimmed(b.title) && IsTrimmed(b.author)
  }

  /** The required paths hold non-empty strings. */
  predicate RequiredPresent(b: Book) {
    Present(b.title) && Present(b.author) && Present(b.description) && AllPresent(b.genres)
  }

  /** `[{type: String, required: true}]`: no entry of the list is empty. */
  predicate AllPresent(gs: seq<string>) {
    forall g :: g in gs ==> Present(g)
  }

  /** Builds a new document from a request body: trims title and author and
      fills the defaults `coverImage ''`, `pages 0`, `language 'English'`,
      `averageRating 0`, `totalReviews 0`, `genres []` for the paths the body
      leaves out. Validation is separate. */
  function NewBook(f: BookFields, id: Id, now: int): (b: Book)
    ensures b.id == id && b.createdAt == now && b.updatedAt == now
    ensures b.title == Trim(f.title.GetOr("")) && b.author == Trim(f.author.GetOr(""))
    ensures b.description == f.description.GetOr("")
    ensures b.coverImage == f.coverImage.GetOr("") && b.genres == f.genres.GetOr([])
    ensures b.pages == f.pages.GetOr(0) && b.language == f.language.GetOr("English")
    ensures b.averageRating == f.averageRating.GetOr(0.0) && b.totalReviews == f.totalReviews.GetOr(0)
    ensures b.publishedYear == f.publishedYear && b.publisher == f.publisher && b.isbn == f.isbn
    ensures b.content == f.content && b.ebookUrl == f.ebookUrl
    ensures Trimmed(b)
  {
    TrimIdempotent(f.title.GetOr(""));
    TrimIdempotent(f.author.GetOr(""));
    var title := Trim(f.title.GetOr(""));
    var author := Trim(f.author.GetOr(""));
    Book(id, title, author, f.description.GetOr(""),
         f.coverImage.GetOr(""), f.genres.GetOr([]), f.pages.GetOr(0), f.publishedYear,
         f.language.GetOr("English"), f.publisher, f.isbn, f.averageRating.GetOr(0.0),
         f.totalReviews.GetOr(0), f.content, f.ebookUrl, now, now)
  }

  /** An optional field of the body replaces the stored one when present. */
  function Override<T>(stored: Option<T>, given: Option<T>): Option<T> {
    if given.Some? then given else stored
  }

  /** Applies the paths a body supplies to an existing book (setters trim title
      and author) and stamps `updatedAt`; every other field is kept. */
  function ApplyFields(b: Book, f: BookFields, now: int): (r: Book)
    ensures r.id == b.id && r.createdAt == b.createdAt && r.updatedAt == now
    ensures r.title == (if f.title.Some? then Trim(f.title.value) else b.title)
    ensures r.author == (if f.author.Some? then Trim(f.author.value) else b.author)
    ensures r.description == f.description.GetOr(b.description)
    ensures r.coverImage == f.coverImage.GetOr(b.coverImage) && r.genres == f.genres.GetOr(b.genres)
    ensures r.pages == f.pages.GetOr(b.pages) && r.language == f.language.GetOr(b.language)
    ensures r.publishedYear == Override(b.publishedYear, f.publishedYear)
    ensures r.publisher == Override(b.publisher, f.publisher) && r.isbn == Override(b.isbn, f.isbn)
    ensures r.content == Override(b.content, f.content) && r.ebookUrl == Override(b.ebookUrl, f.ebookUrl)
    ensures r.averageRating == f.averageRating.GetOr(b.averageRating)
    ensures r.totalReviews == f.totalReviews.GetOr(b.totalReviews)
    ensures Trimmed(b) ==> Trimmed(r)
  {
    TrimIdempotent(f.title.GetOr(""));
    TrimIdempotent(f.author.GetOr(""));
    var title := if f.title.Some? then Trim(f.title.value) else b.title;
    var author := if f.author.Some? then Trim(f.author.value) else b.author;
    Book(b.id, title, author, f.description.GetOr(b.description),
         f.coverImage.GetOr(b.coverImage), f.genres.GetOr(b.genres), f.pages.GetOr(b.pages),
         Override(b.publishedYear, f.publishedYear), f.language.GetOr(b.language),
         Override(b.publisher, f.publisher), Override(b.isbn, f.isbn),
         f.averageRating.GetOr(b.averageRating), f.totalReviews.GetOr(b.totalReviews),
         Override(b.content, f.content), Override(b.ebookUrl, f.ebookUrl), b.createdAt, now)
  }

  /** Applying the same body twice stores what applying it once does (up to
      the time stamp). */
  lemma ApplyFieldsIdempotent(b: Book, f: BookFields, t1: int, t2: int)
    ensures ApplyFields(ApplyFields(b, f, t1), f, t2) == ApplyFields(b, f, t2)
  {
    TrimIdempotent(f.title.GetOr(""));
    TrimIdempotent(f.author.GetOr(""));
  }

  /** An empty body changes only the time stamp. */
  lemma ApplyEmptyBody(b: Book, now: int)
    ensures ApplyFields(b, BookFields(None, None, None, None, None, None, None, None, None, None, None, None, None, None), now)
      == b.(updatedAt := now)
  {
  }

  const TitleRequired: string := "Path `title` is required."
  const AuthorRequired: string := "Path `author` is required."
  const DescriptionRequired: string := "Path `description` is required."
  const GenresRequired: string := "Path `genres` is required."

  /** Mongoose's validation of a book document: the first failing path with
      its message, or `None` when the document is valid. */
  function BookErrors(b: Book): (r: Option<PathError>)
    ensures r.None? <==> RequiredPresent(b)
  {
    if !Present(b.title) then Some(PathError("title", TitleRequired))
    else if !Present(b.author) then Some(PathError("author", AuthorRequired))
    else if !Present(b.description) then Some(PathError("description", DescriptionRequired))
    else if !AllPresent(b.genres) then Some(PathError("genres", GenresRequired))
    else None
  }

  /** Every required path the body supplies holds a non-empty value once the
      setters have trimmed it. */
  predicate SuppliedPresent(f: BookFields) {
    && (f.title.Some? ==> Present(Trim(f.title.value)))
    && (f.author.Some? ==> Present(Trim(f.author.value)))
    && (f.description.Some? ==> Present(f.description.value))
    && (f.genres.Some? ==> AllPresent(f.genres.value))
  }

  /** The update validators (`runValidators: true`): they check only the paths
      the body supplies, after the setters, and need no stored document. */
  function FieldErrors(f: BookFields): (r: Option<PathError>)
    ensures r.None? <==> SuppliedPresent(f)
  {
    if f.title.Some? && !Present(Trim(f.title.value)) then Some(PathError("title", TitleRequired))
    else if f.author.Some? && !Present(Trim(f.author.value)) then Some(PathError("author", AuthorRequired))
    else if f.description.Some? && !Present(f.description.value) then Some(PathError("description", DescriptionRequired))
    else if f.genres.Some? && !AllPresent(f.genres.value) then Some(PathError("genres", GenresRequired))
    else None
  }

  /** On a valid stored book, checking only the supplied paths gives the same
      verdict and message as validating the whole updated document, and an
      update that passes keeps the book valid. */
  lemma FieldErrorsAgree(b: Book, f: BookFields, now: int)
    requires ValidBook(b)
    ensures FieldErrors(f) == BookErrors(ApplyFields(b, f, now))
    ensures FieldErrors(f).None? ==> ValidBook(ApplyFields(b, f, now))
  {
    SameVerdict(b, f, ApplyFields(b, f, now));
  }

  /** The comparison behind `FieldErrorsAgree`, on the four checked paths of
      the updated book `r` only. */
  lemma SameVerdict(b: Book, f: BookFields, r: Book)
    requires RequiredPresent(b)
    requires r.title == (if f.title.Some? then Trim(f.title.value) else b.title)
    requires r.author == (if f.author.Some? then Trim(f.author.value) else b.author)
    requires r.description == f.description.GetOr(b.description)
    requires r.genres == f.genres.GetOr(b.genres)
    ensures FieldErrors(f) == BookErrors(r)
  {
  }
}
