/** The client's review list hook (client/src/hooks/useReviews.js): the
    cached list of reviews and the changes each request makes to it when it
    succeeds or fails. Request outcomes are parameters. */
module UseReviews {
  import opened Wrappers
  import opened ReviewModel
  import ListOps

  const FetchReviewsFailed: string := "Failed to fetch reviews"
  const FetchReviewFailed: string := "Failed to fetch review"
  const CreateReviewFailed: string := "Failed to create review"
  const UpdateReviewFailed: string := "Failed to update review"
  const DeleteReviewFailed: string := "Failed to delete review"

  /** A response carrying reviews or one review, or a failure with the
      server's message (`""` when there is none). */
  datatype ListResponse = ReviewPage(reviews: seq<Review>) | ListFailed(message: string)
  datatype ReviewResponse = Received(review: Review) | Failed(message: string)

  function HasId(id: Id): Review -> bool {
    (r: Review) => r.id == id
  }

  /** `{ ...review, totalLikes }`. */
  function WithTotalLikes(n: int): Review -> Review {
    (r: Review) => r.(totalLikes := n)
  }

  /** The list after a like: the reviews with the id take the server's like
      count and nothing else about them changes; the other reviews and the
      length are unchanged. */
  function Liked(reviews: seq<Review>, id: Id, totalLikes: int): (r: seq<Review>)
    ensures |r| == |reviews|
    ensures forall i :: 0 <= i < |reviews| && reviews[i].id == id ==>
      r[i].totalLikes == totalLikes && r[i].(totalLikes := reviews[i].totalLikes) == reviews[i]
    ensures forall i :: 0 <= i < |reviews| && reviews[i].id != id ==> r[i] == reviews[i]
  {
    ListOps.MapWhere(reviews, HasId(id), WithTotalLikes(totalLikes))
  }

  /** The list after an update: every review with the id is the server's
      copy. */
  function Replaced(reviews: seq<Review>, id: Id, copy: Review): (r: seq<Review>)
    ensures |r| == |reviews|
    ensures forall i :: 0 <= i < |reviews| ==> r[i] == if reviews[i].id == id then copy else reviews[i]
  {
    ListOps.MapWhere(reviews, HasId(id), _ => copy)
  }

  /** Liking keeps a review's id, so deleting it afterwards leaves the same
      list as deleting it straight away; deleting a review the list never
      held changes nothing. */
  lemma DeleteAfterLike(reviews: seq<Review>, id: Id, totalLikes: int)
    ensures ListOps.RemoveWhere(Liked(reviews, id, totalLikes), HasId(id)) == ListOps.RemoveWhere(reviews, HasId(id))
    ensures (forall i :: 0 <= i < |reviews| ==> reviews[i].id != id) ==> ListOps.RemoveWhere(reviews, HasId(id)) == reviews
  {
    ListOps.RemoveAfterMapWhere(reviews, HasId(id), WithTotalLikes(totalLikes));
    if forall i :: 0 <= i < |reviews| ==> reviews[i].id != id {
      ListOps.RemoveWhereNone(reviews, HasId(id));
    }
  }

  /** Two likes in a row leave the like count of the second response. */
  lemma LikeTwice(reviews: seq<Review>, id: Id, first: int, second: int)
    ensures Liked(Liked(reviews, id, first), id, second) == Liked(reviews, id, second)
  {
  }

  class Reviews {
    var reviews: seq<Review>
    var loading: bool
    var error: string

    constructor ()
      ensures reviews == [] && !loading && error == ""
    {
      reviews := [];
      loading := false;
      error := "";
    }

    /** `fetchReviews`: the response's reviews replace the whole list; a
        failure leaves the list and sets the error. */
    method FetchReviews(response: ListResponse) returns (ok: bool)
      modifies this
      ensures ok <==> response.ReviewPage?
      ensures response.ReviewPage? ==> reviews == response.reviews && error == ""
      ensures response.ListFailed? ==> reviews == old(reviews) && error == MessageOr(response.message, FetchReviewsFailed)
      ensures !loading
    {
      loading := true;
      error := "";
      match response {
        case ReviewPage(rs) =>
          reviews := rs;
          ok := true;
        case ListFailed(message) =>
          error := MessageOr(message, FetchReviewsFailed);
          ok := false;
      }
      loading := false;
    }

    /** `getReview`: the list is untouched; a failure sets the error. */
    method GetReview(response: ReviewResponse) returns (review: Option<Review>)
      modifies this
      ensures review == (if response.Received? then Some(response.review) else None)
      ensures response.Failed? ==> error == MessageOr(response.message, FetchReviewFailed)
      ensures response.Received? ==> error == old(error)
      ensures reviews == old(reviews) && !loading
    {
      loading := true;
      match response {
        case Received(r) =>
          review := Some(r);
        case Failed(message) =>
          error := MessageOr(message, FetchReviewFailed);
          review := None;
      }
      loading := false;
    }

    /** `createReview`: the new review goes first. */
    method CreateReview(response: ReviewResponse) returns (created: Option<Review>)
      modifies this
      ensures response.Received? ==> reviews == [response.review] + old(reviews) && error == old(error)
      ensures response.Failed? ==> reviews == old(reviews) && error == MessageOr(response.message, CreateReviewFailed)
      ensures created == (if response.Received? then Some(response.review) else None)
      ensures !loading
    {
      loading := true;
      match response {
        case Received(r) =>
          reviews := [r] + reviews;
          created := Some(r);
        case Failed(message) =>
          error := MessageOr(message, CreateReviewFailed);
          created := None;
      }
      loading := false;
    }

    /** `updateReview`: every cached review with the id becomes the server's
        copy. */
    method UpdateReview(id: Id, response: ReviewResponse) returns (updated: Option<Review>)
      modifies this
      ensures response.Received? ==> reviews == Replaced(old(reviews), id, response.review) && error == old(error)
      ensures response.Failed? ==> reviews == old(reviews) && error == MessageOr(response.message, UpdateReviewFailed)
      ensures updated == (if response.Received? then Some(response.review) else None)
      ensures !loading
    {
      loading := true;
      match response {
        case Received(r) =>
          reviews := Replaced(reviews, id, r);
          updated := Some(r);
        case Failed(message) =>
          error := MessageOr(message, UpdateReviewFailed);
          updated := None;
      }
      loading := false;
    }

    /** `deleteReview`: every cached review with the id is dropped and the
        others keep their order. */
    method DeleteReview(id: Id, failure: Option<string>)
      modifies this
      ensures failure.None? ==> reviews == ListOps.RemoveWhere(old(reviews), HasId(id)) && error == old(error)
      ensures failure.Some? ==> reviews == old(reviews) && error == MessageOr(failure.value, DeleteReviewFailed)
      ensures !loading
    {
      loading := true;
      if failure.None? {
        reviews := ListOps.RemoveWhere(reviews, HasId(id));
      } else {
        error := MessageOr(failure.value, DeleteReviewFailed);
      }
      loading := false;
    }

    /** `likeReview`: on success only the like counts of the reviews with the
        id change; a failure is passed on to the caller without touching the
        list, the error or the loading flag. `totalLikes` is the server's
        count, `None` when the request fails. */
    method LikeReview(id: Id, totalLikes: Option<int>) returns (ok: bool)
      modifies this
      ensures ok <==> totalLikes.Some?
      ensures totalLikes.Some? ==> reviews == Liked(old(reviews), id, totalLikes.value)
      ensures totalLikes.None? ==> reviews == old(reviews)
      ensures error == old(error) && loading == old(loading)
    {
      if totalLikes.Some? {
        reviews := Liked(reviews, id, totalLikes.value);
      }
      ok := totalLikes.Some?;
    }
  }
}
