/** The user handlers: profile update, the reading library query and the
    reading-progress upsert (server/controllers/userController.js). */
module UserController {
  import opened Wrappers
  import opened ProgressModel
  import opened UserModel
  import opened Store
  import opened ListOps
  import opened Query

  // ---------------------------------------------------------------- profile

  /** The body of a profile update. A string field that is `""` is absent
      (falsy); `favoriteGenres` is a list, and any supplied list, even an empty
      one, is truthy. */
  datatype ProfileRequest = ProfileRequest(
    username: string, email: string, bio: string, avatar: string,
    favoriteGenres: Option<seq<string>>, password: string)

  /** The JSON the handler answers with: the saved user without its password. */
  datatype ProfileResponse = ProfileResponse(
    id: UserModel.Id, username: string, email: string, bio: string, avatar: string,
    favoriteGenres: seq<string>)

  /** `req.body.x || user.x` for each field, and the password only when provided. */
  function MergeProfile(u: User, req: ProfileRequest): (r: User)
    ensures r.id == u.id
    ensures r.username == (if req.username != "" then req.username else u.username)
    ensures r.email == (if req.email != "" then req.email else u.email)
    ensures r.bio == (if req.bio != "" then req.bio else u.bio)
    ensures r.avatar == (if req.avatar != "" then req.avatar else u.avatar)
    ensures r.favoriteGenres == req.favoriteGenres.GetOr(u.favoriteGenres)
    ensures r.password == (if req.password != "" then req.password else u.password)
  {
    User(u.id,
         if req.username != "" then req.username else u.username,
         if req.email != "" then req.email else u.email,
         if req.password != "" then req.password else u.password,
         if req.bio != "" then req.bio else u.bio,
         if req.avatar != "" then req.avatar else u.avatar,
         req.favoriteGenres.GetOr(u.favoriteGenres))
  }

  /** Replaying the same profile update changes nothing more, and an empty
      update leaves the user as it was. */
  lemma MergeProfileIdempotent(u: User, req: ProfileRequest)
    ensures MergeProfile(MergeProfile(u, req), req) == MergeProfile(u, req)
    ensures req == ProfileRequest("", "", "", "", None, "") ==> MergeProfile(u, req) == u
  {
  }

  method UpdateUserProfile(db: Db, userId: UserModel.Id, req: ProfileRequest)
    returns (r: Result<ProfileResponse>)
    requires db.Valid()
    modifies db
    ensures db.Valid()
    ensures db.books == old(db.books) && db.reviews == old(db.reviews) && db.progress == old(db.progress)
    ensures userId !in old(db.users) ==> r == Err(HttpError(404, "User not found")) && db.users == old(db.users)
    ensures userId in old(db.users) ==>
      var u := MergeProfile(old(db.users)[userId], req);
      && db.users == old(db.users)[userId := u]
      && r == Ok(ProfileResponse(u.id, u.username, u.email, u.bio, u.avatar, u.favoriteGenres))
  {
    if userId !in db.users {
      return Err(HttpError(404, "User not found"));
    }
    var user := db.users[userId];
    user := user.(username := if req.username != "" then req.username else user.username);
    user := user.(email := if req.email != "" then req.email else user.email);
    user := user.(bio := if req.bio != "" then req.bio else user.bio);
    user := user.(avatar := if req.avatar != "" then req.avatar else user.avatar);
    user := user.(favoriteGenres := req.favoriteGenres.GetOr(user.favoriteGenres));
    if req.password != "" {
      user := user.(password := req.password);
    }
    db.users := db.users[userId := user];
    r := Ok(ProfileResponse(user.id, user.username, user.email, user.bio, user.avatar, user.favoriteGenres));
  }

  // ---------------------------------------------------------------- library

  /** A record is in a user's library view when it is theirs and, if a status
      filter is given, its status is spelled that way. */
  predicate InLibrary(q: Progress, user: ProgressModel.Id, status: string) {
    q.user == user && (status == "" || StatusName(q.status) == status)
  }

  /** `getUserLibrary`: the user's records with the requested status, most
      recently read first. */
  function UserLibrary(ps: seq<Progress>, user: ProgressModel.Id, status: string): (r: seq<Progress>)
    ensures forall q :: q in r ==> InLibrary(q, user, status)
    ensures forall q :: q in ps && InLibrary(q, user, status) ==> q in r
    ensures multiset(r) == multiset(Select(ps, q => InLibrary(q, user, status)))
    ensures SortedDesc(r, (q: Progress) => q.lastReadAt)
  {
    var picked := Select(ps, q => InLibrary(q, user, status));
    var r := SortDesc(picked, (q: Progress) => q.lastReadAt);
    forall q | q in r ensures InLibrary(q, user, status) {
      assert q in multiset(r);
      SelectMembers(ps, q => InLibrary(q, user, status), q);
    }
    forall q | q in ps && InLibrary(q, user, status) ensures q in r {
      SelectMembers(ps, q => InLibrary(q, user, status), q);
      assert q in multiset(picked);
    }
    r
  }

  // ---------------------------------------------------------------- progress upsert

  /** The body of a progress update. `status` is `""` when absent (falsy);
      `currentPage` distinguishes `undefined` from 0. */
  datatype ProgressRequest = ProgressRequest(
    status: string,
    currentPage: Option<int>,
    note: Option<NoteInput>,
    highlight: Option<HighlightInput>)

  /** The `ValidationError` that saving a record with an unknown status
      raises, which the handler answers with 500 and its message. */
  function EnumError(s: string): HttpError {
    HttpError(500, DocumentFailed("ReadingProgress",
      PathError("status", "`" + s + "` is not a valid enum value for path `status`.")))
  }

  function AppendNote(notes: seq<Note>, n: Option<NoteInput>, now: int): seq<Note> {
    if n.Some? then notes + [StampNote(n.value, now)] else notes
  }

  function AppendHighlight(hs: seq<Highlight>, h: Option<HighlightInput>, now: int): seq<Highlight> {
    if h.Some? then hs + [StampHighlight(h.value, now)] else hs
  }

  /** The update of an existing record, as saved: status only from a truthy
      request status, page whenever supplied, read time now, annotations
      appended, `finishedAt` stamped once. */
  function UpdatedProgress(p: Progress, req: ProgressRequest, now: int): (r: Result<Progress>)
    ensures r.Err? <==> req.status != "" && ParseStatus(req.status).None?
    ensures r.Ok? ==> var q := r.value;
      && q.id == p.id && q.user == p.user && q.book == p.book && q.progress == p.progress
      && q.startedAt == p.startedAt && q.createdAt == p.createdAt
      && q.lastReadAt == now && q.updatedAt == now
      && (req.status == "" ==> q.status == p.status)
      && (req.status != "" ==> StatusName(q.status) == req.status)
      && q.currentPage == req.currentPage.GetOr(p.currentPage)
      && p.notes <= q.notes && p.highlights <= q.highlights
      && |q.notes| == |p.notes| + (if req.note.Some? then 1 else 0)
      && |q.highlights| == |p.highlights| + (if req.highlight.Some? then 1 else 0)
      && (req.note.Some? ==> q.notes[|q.notes| - 1] == StampNote(req.note.value, now))
      && (req.highlight.Some? ==> q.highlights[|q.highlights| - 1] == StampHighlight(req.highlight.value, now))
      && (p.finishedAt.Some? ==> q.finishedAt == p.finishedAt)
      && (p.finishedAt.None? ==> (q.finishedAt.Some? <==> req.status == "finished"))
      && (q.finishedAt != p.finishedAt ==> q.finishedAt == Some(now))
  {
    var statusText := if req.status != "" then req.status else StatusName(p.status);
    match ParseStatus(statusText)
    case None => Err(EnumError(statusText))
    case Some(st) =>
      var finished := if req.status == "finished" && p.finishedAt.None? then Some(now) else p.finishedAt;
      Ok(Progress(p.id, p.user, p.book, st, req.currentPage.GetOr(p.currentPage), p.progress,
                  p.startedAt, finished, now, AppendNote(p.notes, req.note, now),
                  AppendHighlight(p.highlights, req.highlight, now), p.createdAt, now))
  }

  /** The record created on the first call for a pair: status defaults to
      want-to-read and page to 0, `startedAt` only for an initial
      currently-reading, and annotations sent with this call are dropped. */
  function CreatedProgress(id: ProgressModel.Id, user: ProgressModel.Id, book: ProgressModel.Id,
                           req: ProgressRequest, now: int): (r: Result<Progress>)
    ensures r.Err? <==> req.status != "" && ParseStatus(req.status).None?
    ensures r.Ok? ==> var q := r.value;
      && ValidProgress(q) && q.id == id && q.user == user && q.book == book
      && q.status == (if req.status == "" then WantToRead else ParseStatus(req.status).value)
      && q.currentPage == req.currentPage.GetOr(0)
      && (q.startedAt.Some? <==> req.status == "currently-reading")
      && (q.startedAt.Some? ==> q.startedAt == Some(now))
      && q.finishedAt.None? && q.notes == [] && q.highlights == [] && q.lastReadAt == now
  {
    var statusText := if req.status != "" then req.status else "want-to-read";
    match ParseStatus(statusText)
    case None => Err(EnumError(statusText))
    case Some(st) =>
      var d := DefaultProgress(id, user, book, now);
      Ok(d.(status := st, currentPage := req.currentPage.GetOr(0),
            startedAt := if req.status == "currently-reading" then Some(now) else None))
  }

  function MatchesPair(user: ProgressModel.Id, book: ProgressModel.Id): Progress -> bool {
    (q: Progress) => q.user == user && q.book == book
  }

  /** `updateReadingProgress`: update the pair's record in place, or create it. */
  method UpdateReadingProgress(db: Db, user: ProgressModel.Id, book: ProgressModel.Id,
                               req: ProgressRequest, now: int, newId: ProgressModel.Id)
    returns (r: Result<Progress>)
    requires db.Valid()
    modifies db
    ensures db.Valid()
    ensures db.books == old(db.books) && db.reviews == old(db.reviews) && db.users == old(db.users)
    ensures var at := IndexWhere(old(db.progress), MatchesPair(user, book));
      && (at.Some? ==>
            && r == UpdatedProgress(old(db.progress)[at.value], req, now)
            && db.progress == (if r.Ok? then old(db.progress)[at.value := r.value] else old(db.progress)))
      && (at.None? ==>
            && r == CreatedProgress(newId, user, book, req, now)
            && db.progress == (if r.Ok? then old(db.progress) + [r.value] else old(db.progress)))
  {
    var at := IndexWhere(db.progress, MatchesPair(user, book));
    if at.Some? {
      r := UpdateProgressAt(db, at.value, req, now);
    } else {
      r := CreatedProgress(newId, user, book, req, now);
      if r.Ok? {
        db.progress := db.progress + [r.value];
      }
    }
  }

  /** The in-place branch of `updateReadingProgress`: the `k`th record is
      edited field by field and saved, unless the status does not parse. */
  method UpdateProgressAt(db: Db, k: nat, req: ProgressRequest, now: int) returns (r: Result<Progress>)
    requires db.Valid() && k < |db.progress|
    modifies db
    ensures db.Valid()
    ensures db.books == old(db.books) && db.reviews == old(db.reviews) && db.users == old(db.users)
    ensures r == UpdatedProgress(old(db.progress)[k], req, now)
    ensures db.progress == (if r.Ok? then old(db.progress)[k := r.value] else old(db.progress))
  {
    var p := db.progress[k];
    var statusText := if req.status != "" then req.status else StatusName(p.status);
    var parsed := ParseStatus(statusText);
    p := p.(currentPage := req.currentPage.GetOr(p.currentPage));
    p := p.(lastReadAt := now);
    if req.note.Some? {
      p := p.(notes := p.notes + [StampNote(req.note.value, now)]);
    }
    if req.highlight.Some? {
      p := p.(highlights := p.highlights + [StampHighlight(req.highlight.value, now)]);
    }
    if req.status == "finished" && p.finishedAt.None? {
      p := p.(finishedAt := Some(now));
    }
    if parsed.None? {
      return Err(EnumError(statusText));
    }
    p := p.(status := parsed.value, updatedAt := now);
    db.progress := db.progress[k := p];
    r := Ok(p);
  }

  /** A series of progress calls for one pair, each at its own time; a call
      whose save fails leaves the stored record as it was. */
  function Replay(p: Progress, calls: seq<(ProgressRequest, int)>): Progress
    decreases |calls|
  {
    if calls == [] then p
    else
      var r := UpdatedProgress(p, calls[0].0, calls[0].1);
      Replay(if r.Ok? then r.value else p, calls[1..])
  }

  /** Over any series of updates: a set `finishedAt` never changes, `startedAt`
      is never touched, and notes and highlights only grow at the end. */
  lemma {:induction false} ReplayKeepsHistory(p: Progress, calls: seq<(ProgressRequest, int)>)
    decreases |calls|
    ensures var q := Replay(p, calls);
      && (p.finishedAt.Some? ==> q.finishedAt == p.finishedAt)
      && q.startedAt == p.startedAt
      && p.notes <= q.notes && p.highlights <= q.highlights
      && q.user == p.user && q.book == p.book
  {
    if calls != [] {
      var r := UpdatedProgress(p, calls[0].0, calls[0].1);
      var next := if r.Ok? then r.value else p;
      ReplayKeepsHistory(next, calls[1..]);
    }
  }

  /** Marking a book finished twice keeps the first completion time. */
  lemma {:induction false} FinishTwiceKeepsFirstTime(p: Progress, req: ProgressRequest, t1: int, t2: int)
    requires p.finishedAt.None? && req.status == "finished"
    ensures var q := Replay(p, [(req, t1), (req, t2)]);
      q.finishedAt == Some(t1) && q.status == Finished
  {
    var calls := [(req, t1), (req, t2)];
    var q1 := UpdatedProgress(p, req, t1).value;
    assert Replay(p, calls) == Replay(q1, calls[1..]);
    assert calls[1..] == [(req, t2)];
    var q2 := UpdatedProgress(q1, req, t2).value;
    assert Replay(q1, [(req, t2)]) == Replay(q2, []);
  }
}
