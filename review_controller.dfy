/** The review handlers: listing, lookup, create with the book's rating
    summary, update, delete, like toggling and the featured review
    (server/controllers/reviewController.js). */
module ReviewController {
  import opened Wrappers
  import opened Text
  import opened ListOps
  import opened Query
  import opened BookModel
  import opened ReviewModel
  import opened Store

  // ---------------------------------------------------------------- listing

  /** The query string of a listing. `status`, `page` and `limit` fall back to
      `'published'`, 1 and 10 only when absent; `bookId` filters when truthy. */
  datatype ReviewQuery = ReviewQuery(
    bookId: string, status: Option<string>, page: Option<int>, limit: Option<int>)

  predicate MatchesQuery(r: Review, bookId: string, status: string) {
    StatusName(r.status) == status && (bookId == "" || r.book == bookId)
  }

  function Matching(bookId: string, status: string): Review -> bool {
    x => MatchesQuery(x, bookId, status)
  }

  function CreatedAt(r: Review): int { r.createdAt }

  /** `getReviews`: the reviews with the requested status (and book), newest
      first, one page of them, with the page count and the total. */
  function ListReviews(rs: seq<Review>, q: ReviewQuery): (r: Result<Page<Review>>)
    ensures var page := q.page.GetOr(1); var limit := q.limit.GetOr(10);
      && (r.Err? <==> (page - 1) * limit < 0)
      && (r.Ok? ==>
            && r.value.total == |Select(rs, Matching(q.bookId, q.status.GetOr("published")))|
            && r.value.totalPages == TotalPages(r.value.total, limit)
            && (limit > 0 ==> |r.value.items| <= limit)
            && SortedDesc(r.value.items, CreatedAt)
            && (forall x :: x in r.value.items ==>
                  x in rs && StatusName(x.status) == q.status.GetOr("published")
                  && (q.bookId != "" ==> x.book == q.bookId)))
    ensures r.Ok? ==>
      Paginate(SortDesc(Select(rs, Matching(q.bookId, q.status.GetOr("published"))), CreatedAt),
               q.page.GetOr(1), q.limit.GetOr(10)) == Ok(r.value.items)
  {
    FindPage(rs, Matching(q.bookId, q.status.GetOr("published")), CreatedAt, q.page.GetOr(1), q.limit.GetOr(10))
  }

  /** `getReviewById`. */
  function FindReview(rs: seq<Review>, id: ReviewModel.Id): (r: Result<Review>)
    ensures r.Ok? ==> r.value in rs && r.value.id == id
    ensures r.Err? <==> forall x :: x in rs ==> x.id != id
    ensures r.Err? ==> r.error == HttpError(404, "Review not found")
  {
    match IndexWhere(rs, HasReviewId(id))
    case None => Err(HttpError(404, "Review not found"))
    case Some(i) => Ok(rs[i])
  }

  /** `getFeaturedReviews`: the first review that is featured and published,
      or `None` (`null`). */
  function FeaturedReview(rs: seq<Review>): (r: Option<Review>)
    ensures r.Some? ==> r.value in rs && r.value.isFeatured && r.value.status == Published
    ensures r.None? <==> forall x :: x in rs ==> !(x.isFeatured && x.status == Published)
    ensures r.Some? ==> exists i :: 0 <= i < |rs| && rs[i] == r.value &&
                          forall k :: 0 <= k < i ==> !(rs[k].isFeatured && rs[k].status == Published)
  {
    match IndexWhere(rs, (x: Review) => x.isFeatured && x.status == Published)
    case None => None
    case Some(i) => Some(rs[i])
  }

  // ---------------------------------------------------------------- rating summary

  predicate PublishedFor(x: Review, book: BookModel.Id) {
    x.book == book && x.status == Published
  }

  function PublishedOf(book: BookModel.Id): Review -> bool {
    x => PublishedFor(x, book)
  }

  function PublishedReviews(rs: seq<Review>, book: BookModel.Id): seq<Review> {
    Select(rs, PublishedOf(book))
  }

  function SumRatings(rs: seq<Review>): int {
    if rs == [] then 0 else rs[0].rating + SumRatings(rs[1..])
  }

  /** The `reduce` sum divided by the count. */
  function AverageRating(rs: seq<Review>): (avg: real)
    requires |rs| > 0
    ensures avg * (|rs| as real) == SumRatings(rs) as real
  {
    SumRatings(rs) as real / |rs| as real
  }

  lemma {:induction false} SumRatingsBounds(rs: seq<Review>)
    requires forall i :: 0 <= i < |rs| ==> 1 <= rs[i].rating <= 5
    ensures |rs| <= SumRatings(rs) <= 5 * |rs|
  {
    if rs != [] {
      SumRatingsBounds(rs[1..]);
    }
  }

  /** The mean of valid ratings is itself a rating between one and five stars. */
  lemma AverageWithinStars(rs: seq<Review>)
    requires |rs| > 0
    requires forall i :: 0 <= i < |rs| ==> 1 <= rs[i].rating <= 5
    ensures 1.0 <= AverageRating(rs) <= 5.0
  {
    SumRatingsBounds(rs);
    QuotientBounds(SumRatings(rs) as real, |rs| as real);
  }

  lemma QuotientBounds(a: real, n: real)
    requires n > 0.0 && n <= a <= 5.0 * n
    ensures 1.0 <= a / n <= 5.0
  {
  }

  /** The book after `findByIdAndUpdate` with the rating summary of the
      published reviews of it. */
  function RatedBook(b: Book, rs: seq<Review>, now: int): (r: Book)
    requires exists x :: x in rs && PublishedFor(x, b.id)
    ensures ValidBook(b) ==> ValidBook(r)
    ensures r.totalReviews == |PublishedReviews(rs, b.id)| >= 1
    ensures r.averageRating == AverageRating(PublishedReviews(rs, b.id))
    ensures r.updatedAt == now
    ensures r.(averageRating := b.averageRating, totalReviews := b.totalReviews, updatedAt := b.updatedAt) == b
  {
    var x :| x in rs && PublishedFor(x, b.id);
    SelectMembers(rs, PublishedOf(b.id), x);
    var pub := PublishedReviews(rs, b.id);
    assert |pub| > 0;
    Book(b.id, b.title, b.author, b.description, b.coverImage, b.genres, b.pages, b.publishedYear,
         b.language, b.publisher, b.isbn, AverageRating(pub), |pub|, b.content, b.ebookUrl,
         b.createdAt, now)
  }

  // ---------------------------------------------------------------- create

  function HasBookId(book: BookModel.Id): Book -> bool {
    (b: Book) => b.id == book
  }

  predicate ReviewedBy(rs: seq<Review>, book: BookModel.Id, user: ReviewModel.Id) {
    exists i :: 0 <= i < |rs| && rs[i].book == book && rs[i].user == user
  }

  /** `createReview`: 404 for an unknown book, 400 for a second review by the
      same user; otherwise the document is created and the book's rating
      summary is recomputed over its published reviews. */
  method CreateReview(db: Db, user: ReviewModel.Id, book: BookModel.Id, input: ReviewInput,
                      id: ReviewModel.Id, now: int)
    returns (r: Result<Review>)
    requires db.Valid()
    requires forall i :: 0 <= i < |db.reviews| ==> db.reviews[i].id != id
    modifies db
    ensures db.Valid()
    ensures db.users == old(db.users) && db.progress == old(db.progress)
    ensures var at := IndexWhere(old(db.books), HasBookId(book));
      && (at.None? ==>
            r == Err(HttpError(404, "Book not found"))
            && db.books == old(db.books) && db.reviews == old(db.reviews))
      && (at.Some? && ReviewedBy(old(db.reviews), book, user) ==>
            r == Err(HttpError(400, "You already reviewed this book"))
            && db.books == old(db.books) && db.reviews == old(db.reviews))
      && (at.Some? && !ReviewedBy(old(db.reviews), book, user) ==>
            && r == CreateReviewDoc(input, id, book, user, now)
            && (r.Err? ==> db.books == old(db.books) && db.reviews == old(db.reviews))
            && (r.Ok? ==>
                  && db.reviews == old(db.reviews) + [r.value]
                  && r.value in db.reviews && PublishedFor(r.value, old(db.books)[at.value].id)
                  && db.books == old(db.books)[at.value := RatedBook(old(db.books)[at.value], db.reviews, now)]))
  {
    var at := IndexWhere(db.books, HasBookId(book));
    if at.None? {
      return Err(HttpError(404, "Book not found"));
    }
    if ReviewedBy(db.reviews, book, user) {
      return Err(HttpError(400, "You already reviewed this book"));
    }
    r := CreateReviewDoc(input, id, book, user, now);
    if r.Err? {
      return;
    }
    var x := r.value;
    assert ValidReview(x);
    assert forall i :: 0 <= i < |db.reviews| ==> (db.reviews[i].book, db.reviews[i].user) != (x.book, x.user);
    AddRatedReview(db, at.value, x, now);
  }

  /** Stores a new published review of the `k`th book and recomputes that
      book's rating summary. */
  method AddRatedReview(db: Db, k: nat, x: Review, now: int)
    requires db.Valid() && k < |db.books|
    requires ValidReview(x) && PublishedFor(x, db.books[k].id)
    requires forall i :: 0 <= i < |db.reviews| ==> db.reviews[i].id != x.id && (db.reviews[i].book, db.reviews[i].user) != (x.book, x.user)
    modifies db
    ensures db.Valid()
    ensures db.users == old(db.users) && db.progress == old(db.progress)
    ensures db.reviews == old(db.reviews) + [x] && x in db.reviews
    ensures db.books == old(db.books)[k := RatedBook(old(db.books)[k], db.reviews, now)]
  {
    ReviewsAppend(db.reviews, x);
    db.reviews := db.reviews + [x];
    assert x in db.reviews;
    var rated := RatedBook(db.books[k], db.reviews, now);
    BooksReplace(db.books, k, rated);
    db.books := db.books[k := rated];
  }

  /** After a create, the book's average is a rating between one and five stars. */
  lemma CreatedAverageWithinStars(b: Book, rs: seq<Review>, now: int)
    requires ValidReviews(rs)
    requires exists x :: x in rs && PublishedFor(x, b.id)
    ensures 1.0 <= RatedBook(b, rs, now).averageRating <= 5.0
  {
    var pub := PublishedReviews(rs, b.id);
    assert RatedBook(b, rs, now).totalReviews >= 1;
    forall i | 0 <= i < |pub| ensures 1 <= pub[i].rating <= 5 {
      assert pub[i] in multiset(pub);
      SelectMembers(rs, PublishedOf(b.id), pub[i]);
      var k :| 0 <= k < |rs| && rs[k] == pub[i];
    }
    AverageWithinStars(pub);
  }

  // ---------------------------------------------------------------- update

  /** The body of an update; `None` is a path the body leaves out. The whole
      body goes to `findByIdAndUpdate`, so every path of the schema can be
      set, the owner, the book, the likes and the counters included. */
  datatype ReviewPatch = ReviewPatch(
    title: Option<string>, content: Option<string>, rating: Option<int>,
    isSpoiler: Option<bool>, status: Option<string>,
    book: Option<BookModel.Id>, user: Option<ReviewModel.Id>, likes: Option<seq<ReviewModel.Id>>,
    totalLikes: Option<int>, totalComments: Option<int>, isFeatured: Option<bool>,
    readingTime: Option<int>)

  /** The validators `runValidators` runs on the paths the update sets: the
      first failing path with its message. */
  function PatchErrors(p: ReviewPatch): (r: Option<PathError>)
    ensures r.None? <==>
      && (p.title.Some? ==> Trim(p.title.value) != "" && |Trim(p.title.value)| <= TitleMaxLength)
      && (p.content.Some? ==> p.content.value != "" && |p.content.value| >= ContentMinLength)
      && (p.rating.Some? ==> 1 <= p.rating.value <= 5)
      && (p.status.Some? ==> ParseStatus(p.status.value).Some?)
  {
    if p.title.Some? && Trim(p.title.value) == "" then Some(PathError("title", "Please provide a review title"))
    else if p.title.Some? && |Trim(p.title.value)| > TitleMaxLength then Some(PathError("title", "Title cannot exceed 200 characters"))
    else if p.content.Some? && p.content.value == "" then Some(PathError("content", "Please provide review content"))
    else if p.content.Some? && |p.content.value| < ContentMinLength then Some(PathError("content", "Review must be at least 50 characters"))
    else if p.rating.Some? && p.rating.value < 1 then
      Some(PathError("rating", "Path `rating` (" + IntToString(p.rating.value) + ") is less than minimum allowed value (1)."))
    else if p.rating.Some? && p.rating.value > 5 then
      Some(PathError("rating", "Path `rating` (" + IntToString(p.rating.value) + ") is more than maximum allowed value (5)."))
    else if p.status.Some? && ParseStatus(p.status.value).None? then
      Some(PathError("status", "`" + p.status.value + "` is not a valid enum value for path `status`."))
    else None
  }

  /** The review with the supplied paths replaced (title trimmed) and
      `updatedAt` stamped; a path the body leaves out keeps its value. */
  function ApplyPatch(r: Review, p: ReviewPatch, status: ReviewStatus, now: int): (q: Review)
    ensures q.id == r.id && q.createdAt == r.createdAt && q.updatedAt == now
    ensures q.title == (if p.title.Some? then Trim(p.title.value) else r.title)
    ensures q.content == p.content.GetOr(r.content) && q.rating == p.rating.GetOr(r.rating)
    ensures q.isSpoiler == p.isSpoiler.GetOr(r.isSpoiler) && q.status == status
    ensures q.book == p.book.GetOr(r.book) && q.user == p.user.GetOr(r.user)
    ensures q.likes == p.likes.GetOr(r.likes) && q.totalLikes == p.totalLikes.GetOr(r.totalLikes)
    ensures q.totalComments == p.totalComments.GetOr(r.totalComments)
    ensures q.isFeatured == p.isFeatured.GetOr(r.isFeatured)
    ensures q.readingTime == p.readingTime.GetOr(r.readingTime)
  {
    var title := if p.title.Some? then Trim(p.title.value) else r.title;
    Review(r.id, p.book.GetOr(r.book), p.user.GetOr(r.user), title, p.content.GetOr(r.content),
           p.rating.GetOr(r.rating), p.likes.GetOr(r.likes), p.totalLikes.GetOr(r.totalLikes),
           p.totalComments.GetOr(r.totalComments), p.isFeatured.GetOr(r.isFeatured),
           p.isSpoiler.GetOr(r.isSpoiler), p.readingTime.GetOr(r.readingTime), status, r.createdAt, now)
  }

  /** `findByIdAndUpdate(id, body, {runValidators: true})`: the validators run
      on the supplied paths; the save hook does not run, so `readingTime` is
      not recomputed. */
  function PatchReview(r: Review, p: ReviewPatch, now: int): (res: Result<Review>)
    ensures res.Err? <==> PatchErrors(p).Some?
    ensures res.Err? ==> res.error == HttpError(500, QueryFailed(PatchErrors(p).value))
    ensures res.Ok? ==> var q := res.value;
      && q == ApplyPatch(r, p, q.status, now)
      && (p.status.None? ==> q.status == r.status)
      && (p.status.Some? ==> StatusName(q.status) == p.status.value)
  {
    match PatchErrors(p)
    case Some(e) => Err(HttpError(500, QueryFailed(e)))
    case None =>
      var status := if p.status.Some? then ParseStatus(p.status.value).value else r.status;
      Ok(ApplyPatch(r, p, status, now))
  }

  /** An update that passes the validators leaves a valid review valid, and
      one that sets neither the likes nor their counter keeps them in
      agreement. */
  lemma PatchKeepsValid(r: Review, p: ReviewPatch, now: int)
    requires ValidReview(r)
    ensures PatchReview(r, p, now).Ok? ==> ValidReview(PatchReview(r, p, now).value)
    ensures PatchReview(r, p, now).Ok? && LikesConsistent(r) && p.likes.None? && p.totalLikes.None? ==>
      LikesConsistent(PatchReview(r, p, now).value)
  {
    if PatchReview(r, p, now).Ok? && p.title.Some? {
      TrimIdempotent(p.title.value);
    }
  }

  /** The body is not filtered: an update that only sets `totalLikes` passes
      the validators and leaves the counter out of step with the likes. */
  lemma PatchCanBreakLikes(r: Review, now: int)
    requires LikesConsistent(r)
    ensures var p := ReviewPatch(None, None, None, None, None, None, None, None, Some(r.totalLikes + 1), None, None, None);
      PatchReview(r, p, now).Ok? && !LikesConsistent(PatchReview(r, p, now).value)
  {
  }

  /** MongoDB's answer when an update would give two reviews the same book and
      user (the unique index on the pair). */
  const DuplicateKeyError: string := "E11000 duplicate key error collection: reviews index: book_1_user_1"

  /** Some review other than the `k`th has this book and user. */
  predicate PairTakenElsewhere(rs: seq<Review>, k: nat, book: BookModel.Id, user: ReviewModel.Id) {
    exists j :: 0 <= j < |rs| && j != k && rs[j].book == book && rs[j].user == user
  }

  function HasReviewId(id: ReviewModel.Id): Review -> bool {
    (x: Review) => x.id == id
  }

  /** `updateReview`: 404 for an unknown id, 403 for a review of another user,
      500 when a validator fails or the update would give the review the book
      and user of another one; otherwise the body's paths are stored. The
      book's rating summary is not recomputed. */
  method UpdateReview(db: Db, user: ReviewModel.Id, id: ReviewModel.Id, p: ReviewPatch, now: int)
    returns (r: Result<Review>)
    requires db.Valid()
    modifies db
    ensures db.Valid()
    ensures db.books == old(db.books) && db.users == old(db.users) && db.progress == old(db.progress)
    ensures var at := IndexWhere(old(db.reviews), HasReviewId(id));
      && (at.None? ==> r == Err(HttpError(404, "Review not found")) && db.reviews == old(db.reviews))
      && (at.Some? && old(db.reviews)[at.value].user != user ==>
            r == Err(HttpError(403, "Not authorized")) && db.reviews == old(db.reviews))
      && (at.Some? && old(db.reviews)[at.value].user == user ==>
            var res := PatchReview(old(db.reviews)[at.value], p, now);
            && (res.Err? ==> r == res && db.reviews == old(db.reviews))
            && (res.Ok? && PairTakenElsewhere(old(db.reviews), at.value, res.value.book, res.value.user) ==>
                  r == Err(HttpError(500, DuplicateKeyError)) && db.reviews == old(db.reviews))
            && (res.Ok? && !PairTakenElsewhere(old(db.reviews), at.value, res.value.book, res.value.user) ==>
                  r == res && db.reviews == old(db.reviews)[at.value := res.value]))
  {
    var at := IndexWhere(db.reviews, HasReviewId(id));
    if at.None? {
      return Err(HttpError(404, "Review not found"));
    }
    if db.reviews[at.value].user != user {
      return Err(HttpError(403, "Not authorized"));
    }
    r := PatchReview(db.reviews[at.value], p, now);
    if r.Err? {
      return;
    }
    var q := r.value;
    if PairTakenElsewhere(db.reviews, at.value, q.book, q.user) {
      return Err(HttpError(500, DuplicateKeyError));
    }
    PatchKeepsValid(db.reviews[at.value], p, now);
    ReviewsReplace(db.reviews, at.value, q);
    db.reviews := db.reviews[at.value := q];
  }

  // ---------------------------------------------------------------- delete

  /** `deleteReview`: 404 for an unknown id, 403 for a review of another user;
      otherwise exactly that review is removed, and the book's rating summary
      is left as it was. */
  method DeleteReview(db: Db, user: ReviewModel.Id, id: ReviewModel.Id) returns (r: Result<string>)
    requires db.Valid()
    modifies db
    ensures db.Valid()
    ensures db.books == old(db.books) && db.users == old(db.users) && db.progress == old(db.progress)
    ensures var at := IndexWhere(old(db.reviews), HasReviewId(id));
      && (at.None? ==> r == Err(HttpError(404, "Review not found")) && db.reviews == old(db.reviews))
      && (at.Some? && old(db.reviews)[at.value].user != user ==>
            r == Err(HttpError(403, "Not authorized")) && db.reviews == old(db.reviews))
      && (at.Some? && old(db.reviews)[at.value].user == user ==>
            r == Ok("Review removed")
            && db.reviews == RemoveAt(old(db.reviews), at.value))
  {
    var at := IndexWhere(db.reviews, HasReviewId(id));
    if at.None? {
      return Err(HttpError(404, "Review not found"));
    }
    if db.reviews[at.value].user != user {
      return Err(HttpError(403, "Not authorized"));
    }
    db.reviews := RemoveAt(db.reviews, at.value);
    r := Ok("Review removed");
  }

  // ---------------------------------------------------------------- likes

  function Other(user: ReviewModel.Id): ReviewModel.Id -> bool {
    x => x != user
  }

  /** `likes.filter(id => id !== user)`. */
  function RemoveAll(likes: seq<ReviewModel.Id>, user: ReviewModel.Id): (r: seq<ReviewModel.Id>)
    ensures forall x :: x in r <==> x in likes && x != user
  {
    var r := Select(likes, Other(user));
    forall x ensures x in r <==> x in likes && x != user {
      SelectMembers(likes, Other(user), x);
    }
    r
  }

  /** The response of a like toggle. */
  datatype LikeResult = LikeResult(isLiked: bool, totalLikes: int)

  /** The review after a like toggle and `save()`: the user leaves the likes
      (every occurrence) or is appended, the counter moves by one, and the
      save hook recomputes the reading time. */
  function ToggleLike(r: Review, user: ReviewModel.Id, now: int): (q: Review)
    ensures user in r.likes ==> user !in q.likes && q.totalLikes == r.totalLikes - 1
    ensures user !in r.likes ==> q.likes == r.likes + [user] && q.totalLikes == r.totalLikes + 1
    ensures forall x :: x != user ==> (x in q.likes <==> x in r.likes)
    ensures q.readingTime == ReadingTime(q.content) && q.updatedAt == now
    ensures q.id == r.id && q.book == r.book && q.user == r.user && q.content == r.content
    ensures q.(likes := r.likes, totalLikes := r.totalLikes, readingTime := r.readingTime, updatedAt := r.updatedAt) == r
    ensures ValidReview(r) ==> ValidReview(q)
  {
    if user in r.likes then
      r.(likes := RemoveAll(r.likes, user), totalLikes := r.totalLikes - 1,
         readingTime := ReadingTime(r.content), updatedAt := now)
    else
      r.(likes := r.likes + [user], totalLikes := r.totalLikes + 1,
         readingTime := ReadingTime(r.content), updatedAt := now)
  }

  /** Removing a user named once from duplicate-free likes removes exactly one
      entry and keeps the rest duplicate-free. */
  lemma {:induction false} RemoveAllOnce(likes: seq<ReviewModel.Id>, user: ReviewModel.Id)
    requires forall i, j :: 0 <= i < j < |likes| ==> likes[i] != likes[j]
    ensures var r := RemoveAll(likes, user);
      && |r| == |likes| - (if user in likes then 1 else 0)
      && forall i, j :: 0 <= i < j < |r| ==> r[i] != r[j]
  {
    if likes != [] {
      var tail := likes[1..];
      RemoveAllOnce(tail, user);
      RemoveAllCons(likes, user);
      if likes[0] != user {
        assert likes[0] !in RemoveAll(tail, user);
        ConsDistinct(likes[0], RemoveAll(tail, user));
      } else {
        assert user !in tail;
      }
    }
  }

  /** Filtering a list splits into its head and the filtered tail. */
  lemma RemoveAllCons(likes: seq<ReviewModel.Id>, user: ReviewModel.Id)
    requires likes != []
    ensures RemoveAll(likes, user) == (if likes[0] == user then [] else [likes[0]]) + RemoveAll(likes[1..], user)
  {
    assert likes == [likes[0]] + likes[1..];
    SelectAppend([likes[0]], likes[1..], Other(user));
    if likes[0] != user {
      assert Select([likes[0]], Other(user)) == [likes[0]];
    } else {
      assert Select([likes[0]], Other(user)) == [];
    }
  }

  /** A new head in front of a duplicate-free list keeps it duplicate-free. */
  lemma ConsDistinct(h: ReviewModel.Id, t: seq<ReviewModel.Id>)
    requires h !in t && forall i, j :: 0 <= i < j < |t| ==> t[i] != t[j]
    ensures var r := [h] + t; forall i, j :: 0 <= i < j < |r| ==> r[i] != r[j]
  {
    var r := [h] + t;
    forall i, j | 0 <= i < j < |r| ensures r[i] != r[j] {
      assert r[j] == t[j - 1];
      if i > 0 {
        assert r[i] == t[i - 1];
      }
    }
  }

  /** Toggling keeps the counter equal to the number of distinct likers. */
  lemma ToggleKeepsLikesConsistent(r: Review, user: ReviewModel.Id, now: int)
    requires LikesConsistent(r)
    ensures LikesConsistent(ToggleLike(r, user, now))
  {
    RemoveAllOnce(r.likes, user);
  }

  /** Two toggles by the same user restore who likes the review and the
      counter; a first like undone restores the likes exactly. */
  lemma ToggleTwiceRestores(r: Review, user: ReviewModel.Id, t1: int, t2: int)
    requires LikesConsistent(r)
    ensures var q := ToggleLike(ToggleLike(r, user, t1), user, t2);
      && (forall x :: x in q.likes <==> x in r.likes)
      && q.totalLikes == r.totalLikes
      && (user !in r.likes ==> q.likes == r.likes)
  {
    var q1 := ToggleLike(r, user, t1);
    var q := ToggleLike(q1, user, t2);
    if user in r.likes {
      assert user !in q1.likes;
      assert q.likes == q1.likes + [user];
    } else {
      RemoveAppended(r.likes, user);
    }
  }

  /** Removing a user just appended to likes that lacked them restores the
      likes exactly. */
  lemma RemoveAppended(likes: seq<ReviewModel.Id>, user: ReviewModel.Id)
    requires user !in likes
    ensures RemoveAll(likes + [user], user) == likes
  {
    assert forall i :: 0 <= i < |likes| ==> Other(user)(likes[i]);
    SelectAll(likes, Other(user));
    SelectAppend(likes, [user], Other(user));
    assert Select([user], Other(user)) == [];
  }

  /** `likeReview`: 404 for an unknown id; otherwise the toggle is saved and
      `isLiked` is the negation of the prior membership. */
  method LikeReview(db: Db, user: ReviewModel.Id, id: ReviewModel.Id, now: int)
    returns (r: Result<LikeResult>)
    requires db.Valid()
    modifies db
    ensures db.Valid()
    ensures db.books == old(db.books) && db.users == old(db.users) && db.progress == old(db.progress)
    ensures var at := IndexWhere(old(db.reviews), HasReviewId(id));
      && (at.None? ==> r == Err(HttpError(404, "Review not found")) && db.reviews == old(db.reviews))
      && (at.Some? ==>
            var q := ToggleLike(old(db.reviews)[at.value], user, now);
            && db.reviews == old(db.reviews)[at.value := q]
            && r == Ok(LikeResult(user !in old(db.reviews)[at.value].likes, q.totalLikes))
            && (r.value.isLiked <==> user in q.likes))
  {
    var at := IndexWhere(db.reviews, HasReviewId(id));
    if at.None? {
      return Err(HttpError(404, "Review not found"));
    }
    var review := db.reviews[at.value];
    var isLiked := user in review.likes;
    review := ToggleLike(review, user, now);
    db.reviews := db.reviews[at.value := review];
    r := Ok(LikeResult(!isLiked, review.totalLikes));
  }
}
