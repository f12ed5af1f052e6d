/** The review editor component (client/src/components/review/ReviewEditor.jsx),
    used to write or revise a review: its initial state from optional data,
    the character counter, the publish gating, and the payload it hands to
    its `onSubmit` callback. */
module ReviewEditor {
  import opened Wrappers
  import opened WriteReviewPage
  import Formatters

  /** The optional starting values; a missing text is `""`, a missing rating
      `None`, a missing spoiler flag `false`. */
  datatype InitialData = InitialData(title: string, content: string, rating: Option<int>, isSpoiler: bool)

  /** The starting form: every missing or falsy value is replaced by its
      default, and a rating of 0 counts as missing. */
  function InitialForm(init: Option<InitialData>): (f: ReviewForm)
    ensures init.None? ==> f == BlankForm
    ensures init.Some? ==> f.title == init.value.title && f.content == init.value.content
    ensures init.Some? ==> f.isSpoiler == init.value.isSpoiler
    ensures f.rating != 0
    ensures init.Some? && init.value.rating.Some? && init.value.rating.value != 0 ==> f.rating == init.value.rating.value
    ensures init.None? || init.value.rating.None? || init.value.rating == Some(0) ==> f.rating == 5
  {
    match init
    case None => BlankForm
    case Some(d) =>
      var rating := if d.rating.Some? && d.rating.value != 0 then d.rating.value else 5;
      ReviewForm(d.title, d.content, rating, d.isSpoiler)
  }

  /** The counter's starting value: the initial content's length, 0 without one. */
  function InitialCount(init: Option<InitialData>): (n: nat)
    ensures n == |InitialForm(init).content|
  {
    if init.Some? then |init.value.content| else 0
  }

  /** The payload handed to `onSubmit`: the form with `book` set to the
      component's `bookId`. */
  function EditorPayload(form: ReviewForm, bookId: string): (p: ReviewPayload)
    ensures p.book == bookId
    ensures p.title == form.title && p.content == form.content
    ensures p.rating == form.rating && p.isSpoiler == form.isSpoiler
  {
    PayloadOf(bookId, form)
  }

  /** The editor shows the client estimate, which is 0 for an empty review,
      where the review page shows 1 for the same text. */
  lemma EstimatesDifferOnlyWhenEmpty(content: string)
    ensures content != [] ==> Formatters.CalculateReadingTime(content) == MinRead(content)
    ensures Formatters.CalculateReadingTime([]) == 0 && MinRead([]) == 1
  {
    Formatters.ClientAgreesWithServer(content);
  }

  class Editor {
    const bookId: string
    var form: ReviewForm
    var charCount: nat
    var isSubmitting: bool

    /** The counter always equals the length of the content. */
    predicate Valid()
      reads this
    {
      charCount == |form.content|
    }

    constructor (bookId: string, init: Option<InitialData>)
      ensures Valid()
      ensures this.bookId == bookId && form == InitialForm(init) && charCount == InitialCount(init)
      ensures !isSubmitting
    {
      this.bookId := bookId;
      form := InitialForm(init);
      charCount := InitialCount(init);
      isSubmitting := false;
    }

    /** `handleChange`: the same edits and counter rule as the review page. */
    method HandleChange(e: Edit)
      requires Valid()
      modifies this
      ensures Valid()
      ensures form == ApplyEdit(old(form), e) && charCount == CountAfter(old(charCount), e)
      ensures isSubmitting == old(isSubmitting)
    {
      form := ApplyEdit(form, e);
      if e.ContentInput? {
        charCount := |e.value|;
      }
    }

    method ClickStar(star: int)
      requires 1 <= star <= 5
      modifies this
      ensures form == old(form).(rating := star) && charCount == old(charCount)
      ensures isSubmitting == old(isSubmitting)
    {
      form := form.(rating := star);
    }

    /** Publishing is disabled while submitting or while the counter is
        under 50. */
    predicate PublishDisabled()
      reads this
    {
      SubmitDisabled(isSubmitting, charCount)
    }

    /** `handleSubmit`: the payload is handed over whatever the callback then
        does, and `isSubmitting` is false again afterwards whether the
        callback returned or threw, so the callback's outcome is not an input. */
    method HandleSubmit() returns (handed: ReviewPayload)
      modifies this
      ensures handed == EditorPayload(form, bookId)
      ensures form == old(form) && charCount == old(charCount) && !isSubmitting
    {
      isSubmitting := true;
      handed := EditorPayload(form, bookId);
      isSubmitting := false;
    }
  }
}
