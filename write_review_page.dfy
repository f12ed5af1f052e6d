/** The page for writing a review of one book
    (client/src/pages/WriteReview.jsx): the form and its character counter,
    the star picker, the minutes-to-read estimate, and the guarded submit.
    The form, its edits and the star display are shared with the review
    editor component. */
module WriteReviewPage {
  import opened Wrappers
  import opened Text
  import ReviewModel
  import Formatters

  const MinContentLength: nat := 50
  const ContentTooShort: string := "Review must be at least 50 characters long"

  datatype ReviewForm = ReviewForm(title: string, content: string, rating: int, isSpoiler: bool)

  const BlankForm: ReviewForm := ReviewForm("", "", 5, false)

  /** One change event: the text inputs hand over their `value`, the spoiler
      checkbox its `checked` flag. */
  datatype Edit = TitleInput(value: string) | ContentInput(value: string) | SpoilerToggle(checked: bool)

  /** The form after a change event; only the edited field changes. */
  function ApplyEdit(form: ReviewForm, e: Edit): (r: ReviewForm)
    ensures r.rating == form.rating
    ensures r.title == (if e.TitleInput? then e.value else form.title)
    ensures r.content == (if e.ContentInput? then e.value else form.content)
    ensures r.isSpoiler == (if e.SpoilerToggle? then e.checked else form.isSpoiler)
  {
    match e
    case TitleInput(v) => form.(title := v)
    case ContentInput(v) => form.(content := v)
    case SpoilerToggle(c) => form.(isSpoiler := c)
  }

  /** The character counter after a change event: only a content edit moves
      it, and then to the new content's length. */
  function CountAfter(charCount: nat, e: Edit): (n: nat)
    ensures e.ContentInput? ==> n == |e.value|
    ensures !e.ContentInput? ==> n == charCount
  {
    if e.ContentInput? then |e.value| else charCount
  }

  /** The counter keeps matching the content through any change event. */
  lemma CountTracksContent(form: ReviewForm, charCount: nat, e: Edit)
    requires charCount == |form.content|
    ensures CountAfter(charCount, e) == |ApplyEdit(form, e).content|
  {
  }

  /** Star `j` of the five is lit when `j` is at most the rating. */
  predicate StarLit(j: int, rating: int) {
    j <= rating
  }

  /** The lit stars for a rating, first to fifth. */
  function StarRow(rating: int): (row: seq<bool>)
    ensures |row| == 5
  {
    seq(5, j requires 0 <= j < 5 => StarLit(j + 1, rating))
  }

  function CountLit(row: seq<bool>): (n: nat)
    ensures n <= |row|
  {
    if row == [] then 0 else (if row[0] then 1 else 0) + CountLit(row[1..])
  }

  /** After clicking star `i`, exactly the first `i` stars are lit. */
  lemma {:induction false} ClickedStarsLit(i: int)
    requires 1 <= i <= 5
    ensures CountLit(StarRow(i)) == i
    ensures forall j :: 0 <= j < 5 ==> (StarRow(i)[j] <==> j < i)
  {
    var row := StarRow(i);
    assert row == seq(i, _ => true) + seq(5 - i, _ => false);
    LitPrefix(i, 5 - i);
  }

  lemma {:induction false} LitPrefix(a: nat, b: nat)
    ensures CountLit(seq(a, _ => true) + seq(b, _ => false)) == a
  {
    var row := seq(a, _ => true) + seq(b, _ => false);
    if a > 0 {
      assert row[1..] == seq(a - 1, _ => true) + seq(b, _ => false);
      LitPrefix(a - 1, b);
    } else if b > 0 {
      assert row[1..] == seq(0, _ => true) + seq(b - 1, _ => false);
      LitPrefix(0, b - 1);
    }
  }

  /** The estimate under the text box: `ceil(pieces / 200)` with no guard for
      empty text, so it is the number the server stores and shows 1 for an
      empty review. */
  function MinRead(content: string): (m: nat)
    ensures m == ReviewModel.ReadingTime(content)
    ensures content == [] ==> m == 1
  {
    assert SplitWhitespace([]) == [[]];
    CeilDiv(|SplitWhitespace(content)|, ReviewModel.WordsPerMinute)
  }

  /** The publish button is disabled while a request is out or while the
      counter is under 50. */
  predicate SubmitDisabled(busy: bool, charCount: nat) {
    busy || charCount < MinContentLength
  }

  /** The body of a create request. */
  datatype ReviewPayload = ReviewPayload(book: string, title: string, content: string, rating: int, isSpoiler: bool)

  function PayloadOf(bookId: string, form: ReviewForm): ReviewPayload {
    ReviewPayload(bookId, form.title, form.content, form.rating, form.isSpoiler)
  }

  class WriteReview {
    const bookId: string
    var form: ReviewForm
    var charCount: nat
    var error: string
    var loading: bool

    /** The counter always equals the length of the content. */
    predicate Valid()
      reads this
    {
      charCount == |form.content|
    }

    constructor (bookId: string)
      ensures Valid()
      ensures this.bookId == bookId && form == BlankForm && charCount == 0 && error == "" && !loading
    {
      this.bookId := bookId;
      form := BlankForm;
      charCount := 0;
      error := "";
      loading := false;
    }

    /** `handleChange`. */
    method HandleChange(e: Edit)
      requires Valid()
      modifies this
      ensures Valid()
      ensures form == ApplyEdit(old(form), e) && charCount == CountAfter(old(charCount), e)
      ensures error == old(error) && loading == old(loading)
    {
      form := ApplyEdit(form, e);
      if e.ContentInput? {
        charCount := |e.value|;
      }
    }

    /** Clicking one of the five stars. */
    method ClickStar(star: int)
      requires 1 <= star <= 5
      modifies this
      ensures form == old(form).(rating := star) && charCount == old(charCount)
      ensures error == old(error) && loading == old(loading)
      ensures CountLit(StarRow(form.rating)) == star
    {
      form := form.(rating := star);
      ClickedStarsLit(star);
    }

    /** `handleSubmit`: a review under 50 characters is refused with a message
        and nothing is sent; otherwise the form is sent for this book, and the
        page moves to the book on success or shows the parsed error. The
        request's failure, if any, is a parameter. */
    method HandleSubmit(failure: Option<Formatters.ApiError>) returns (sent: Option<ReviewPayload>, toBook: bool)
      requires Valid()
      modifies this
      ensures Valid() && form == old(form) && charCount == old(charCount)
      ensures loading == (old(loading) && |form.content| < MinContentLength)
      ensures |form.content| < MinContentLength ==> sent.None? && !toBook && error == ContentTooShort
      ensures |form.content| >= MinContentLength ==> sent == Some(PayloadOf(bookId, form))
      ensures |form.content| >= MinContentLength ==> (toBook <==> failure.None?)
      ensures |form.content| >= MinContentLength ==>
        error == (if failure.Some? then Formatters.ParseErrorMessage(failure.value) else "")
    {
      error := "";
      if |form.content| < MinContentLength {
        error := ContentTooShort;
        return None, false;
      }
      loading := true;
      sent := Some(PayloadOf(bookId, form));
      toBook := failure.None?;
      if failure.Some? {
        error := Formatters.ParseErrorMessage(failure.value);
      }
      loading := false;
    }
  }

  /** With the counter in step with the content, an enabled button means the
      submit check passes. */
  lemma EnabledButtonPassesCheck(form: ReviewForm, charCount: nat, busy: bool)
    requires charCount == |form.content| && !SubmitDisabled(busy, charCount)
    ensures |form.content| >= MinContentLength && !busy
  {
  }
}
