/** The in-memory database the server handlers read and update: one sequence
    per collection and the users by id. Its invariant holds the schemas'
    constraints and unique indexes. */
module Store {
  import opened BookModel
  import opened ReviewModel
  import opened ProgressModel
  import opened UserModel

  predicate DistinctBookIds(bs: seq<Book>) {
    forall i, j :: 0 <= i < j < |bs| ==> bs[i].id != bs[j].id
  }

  predicate DistinctReviewIds(rs: seq<Review>) {
    forall i, j :: 0 <= i < j < |rs| ==> rs[i].id != rs[j].id
  }

  /** The unique index on (book, user) of reviews. */
  predicate OneReviewPerBookAndUser(rs: seq<Review>) {
    forall i, j :: 0 <= i < j < |rs| ==> (rs[i].book, rs[i].user) != (rs[j].book, rs[j].user)
  }

  predicate ValidBooks(bs: seq<Book>) {
    DistinctBookIds(bs) && forall i :: 0 <= i < |bs| ==> ValidBook(bs[i])
  }

  predicate ValidReviews(rs: seq<Review>) {
    && DistinctReviewIds(rs) && OneReviewPerBookAndUser(rs)
    && forall i :: 0 <= i < |rs| ==> ValidReview(rs[i])
  }

  predicate ValidProgressRecords(ps: seq<Progress>) {
    UniquePairs(ps) && forall i :: 0 <= i < |ps| ==> ValidProgress(ps[i])
  }

  predicate ValidUsers(us: map<UserModel.Id, User>) {
    forall k :: k in us ==> us[k].id == k
  }

  lemma ReviewsAppend(rs: seq<Review>, x: Review)
    requires ValidReviews(rs) && ValidReview(x)
    requires forall i :: 0 <= i < |rs| ==> rs[i].id != x.id && (rs[i].book, rs[i].user) != (x.book, x.user)
    ensures ValidReviews(rs + [x])
  {
    var out := rs + [x];
    assert forall i :: 0 <= i < |rs| ==> out[i] == rs[i];
  }

  lemma ReviewsReplace(rs: seq<Review>, k: nat, x: Review)
    requires ValidReviews(rs) && k < |rs| && ValidReview(x) && x.id == rs[k].id
    requires forall j :: 0 <= j < |rs| && j != k ==> (rs[j].book, rs[j].user) != (x.book, x.user)
    ensures ValidReviews(rs[k := x])
  {
  }

  lemma BooksReplace(bs: seq<Book>, k: nat, x: Book)
    requires ValidBooks(bs) && k < |bs| && ValidBook(x) && x.id == bs[k].id
    ensures ValidBooks(bs[k := x])
  {
  }

  lemma BooksAppend(bs: seq<Book>, x: Book)
    requires ValidBooks(bs) && ValidBook(x)
    requires forall i :: 0 <= i < |bs| ==> bs[i].id != x.id
    ensures ValidBooks(bs + [x])
  {
    var out := bs + [x];
    assert forall i :: 0 <= i < |bs| ==> out[i] == bs[i];
  }

  class Db {
    var books: seq<Book>
    var reviews: seq<Review>
    var progress: seq<Progress>
    var users: map<UserModel.Id, User>

    ghost predicate Valid()
      reads this
    {
      ValidBooks(books) && ValidReviews(reviews) && ValidProgressRecords(progress) && ValidUsers(users)
    }

    constructor ()
      ensures Valid()
      ensures books == [] && reviews == [] && progress == [] && users == map[]
    {
      books, reviews, progress, users := [], [], [], map[];
    }
  }
}
