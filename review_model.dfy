/** The review record: field constraints, defaults, the status enumeration and
    the pre-save reading-time rule (server/models/Review.js). */
module ReviewModel {
  import opened Wrappers
  import opened Text

  type Id = string

  datatype ReviewStatus = Published | Draft | Archived

  /** The stored spelling of a status. */
  function StatusName(s: ReviewStatus): string {
    match s
    case Published => "published"
    case Draft => "draft"
    case Archived => "archived"
  }

  /** The schema's enum check: only the three spellings are accepted. */
  function ParseStatus(s: string): (r: Option<ReviewStatus>)
    ensures r.Some? ==> StatusName(r.value) == s
    ensures r.None? ==> s !in {"published", "draft", "archived"}
  {
    if s == "published" then Some(Published)
    else if s == "draft" then Some(Draft)
    else if s == "archived" then Some(Archived)
    else None
  }

  lemma StatusRoundTrip(st: ReviewStatus)
    ensures ParseStatus(StatusName(st)) == Some(st)
  {
  }

  datatype Review = Review(
    id: Id,
    book: Id,
    user: Id,
    title: string,
    content: string,
    rating: int,
    likes: seq<Id>,
    totalLikes: int,
    totalComments: int,
    isFeatured: bool,
    isSpoiler: bool,
    readingTime: int,
    status: ReviewStatus,
    createdAt: int,
    updatedAt: int)

  const WordsPerMinute: nat := 200
  const TitleMaxLength: nat := 200
  const ContentMinLength: nat := 50

  /** The schema's constraints on the stored strings and the rating. */
  predicate ValidReview(r: Review) {
    && IsTrimmed(r.title) && r.title != "" && |r.title| <= TitleMaxLength
    && r.content != "" && |r.content| >= ContentMinLength
    && 1 <= r.rating <= 5
  }

  /** The pre-save hook: `ceil(n / 200)` where `n` counts the pieces of the
      content split on white-space runs. */
  function ReadingTime(content: string): (m: nat)
    ensures m >= 1
    ensures m * WordsPerMinute >= |SplitWhitespace(content)| > (m - 1) * WordsPerMinute
  {
    CeilDiv(|SplitWhitespace(content)|, WordsPerMinute)
  }

  /** The body of a create request; `None` is a field the body leaves out. */
  datatype ReviewInput = ReviewInput(
    title: Option<string>, content: Option<string>, rating: Option<int>, isSpoiler: Option<bool>)

  /** Validation of a new review's fields, with the message of the first failing
      constraint (a Mongoose validation error). */
  function CheckFields(title: string, content: string, rating: Option<int>): (r: Option<string>)
    ensures r.None? <==>
      (&& Trim(title) != "" && |Trim(title)| <= TitleMaxLength
       && content != "" && |content| >= ContentMinLength
       && rating.Some? && 1 <= rating.value <= 5)
  {
    if Trim(title) == "" then Some("Please provide a review title")
    else if |Trim(title)| > TitleMaxLength then Some("Title cannot exceed 200 characters")
    else if content == "" then Some("Please provide review content")
    else if |content| < ContentMinLength then Some("Review must be at least 50 characters")
    else if rating.None? then Some("Please provide a rating")
    else if rating.value < 1 then
      Some("Path `rating` (" + IntToString(rating.value) + ") is less than minimum allowed value (1).")
    else if rating.value > 5 then
      Some("Path `rating` (" + IntToString(rating.value) + ") is more than maximum allowed value (5).")
    else None
  }

  /** `Review.create`: validation, then the defaults (no likes, counters 0, not
      featured, published) and the pre-save reading time. */
  function CreateReviewDoc(input: ReviewInput, id: Id, book: Id, user: Id, now: int): (r: Result<Review>)
    ensures r.Ok? ==> ValidReview(r.value)
    ensures r.Ok? ==>
      && r.value.id == id && r.value.book == book && r.value.user == user
      && r.value.likes == [] && r.value.totalLikes == 0 && r.value.totalComments == 0
      && !r.value.isFeatured && r.value.status == Published
      && r.value.isSpoiler == input.isSpoiler.GetOr(false)
      && r.value.readingTime == ReadingTime(r.value.content)
      && r.value.createdAt == now && r.value.updatedAt == now
    ensures r.Ok? <==> CheckFields(input.title.GetOr(""), input.content.GetOr(""), input.rating).None?
    ensures r.Ok? ==>
      && r.value.title == Trim(input.title.GetOr("")) && r.value.content == input.content.GetOr("")
      && Some(r.value.rating) == input.rating
    ensures r.Err? ==> r.error == HttpError(500, CheckFields(input.title.GetOr(""), input.content.GetOr(""), input.rating).value)
  {
    var title := Trim(input.title.GetOr(""));
    var content := input.content.GetOr("");
    match CheckFields(input.title.GetOr(""), content, input.rating)
    case Some(msg) => Err(HttpError(500, msg))
    case None =>
      TrimIdempotent(input.title.GetOr(""));
      Ok(Review(id, book, user, title, content, input.rating.value, [], 0, 0, false,
                input.isSpoiler.GetOr(false), ReadingTime(content), Published, now, now))
  }

  /** The review's likes agree with its counter and name each user once. */
  predicate LikesConsistent(r: Review) {
    && r.totalLikes == |r.likes|
    && forall i, j :: 0 <= i < j < |r.likes| ==> r.likes[i] != r.likes[j]
  }
}
