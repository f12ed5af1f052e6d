/** The per-(user, book) reading-progress record: status enumeration, defaults,
    annotation entries and the bounds the schema declares
    (server/models/ReadingProgress.js). */
module ProgressModel {
  import opened Wrappers

  type Id = string

  datatype Status = WantToRead | CurrentlyReading | Finished

  function StatusName(s: Status): string {
    match s
    case WantToRead => "want-to-read"
    case CurrentlyReading => "currently-reading"
    case Finished => "finished"
  }

  /** The schema's enum check on a status string. */
  function ParseStatus(s: string): (r: Option<Status>)
    ensures r.Some? ==> StatusName(r.value) == s
    ensures r.None? ==> s !in {"want-to-read", "currently-reading", "finished"}
  {
    if s == "want-to-read" then Some(WantToRead)
    else if s == "currently-reading" then Some(CurrentlyReading)
    else if s == "finished" then Some(Finished)
    else None
  }

  /** A note as stored: the request's fields and the insertion time. */
  datatype Note = Note(page: Option<int>, content: Option<string>, createdAt: int)

  datatype Highlight = Highlight(text: Option<string>, page: Option<int>, color: Option<string>, createdAt: int)

  /** A note or highlight as a request supplies it, before `createdAt` is defaulted. */
  datatype NoteInput = NoteInput(page: Option<int>, content: Option<string>)
  datatype HighlightInput = HighlightInput(text: Option<string>, page: Option<int>, color: Option<string>)

  function StampNote(n: NoteInput, now: int): (r: Note)
    ensures r.page == n.page && r.content == n.content && r.createdAt == now
  {
    Note(n.page, n.content, now)
  }

  function StampHighlight(h: HighlightInput, now: int): (r: Highlight)
    ensures r.text == h.text && r.page == h.page && r.color == h.color && r.createdAt == now
  {
    Highlight(h.text, h.page, h.color, now)
  }

  datatype Progress = Progress(
    id: Id,
    user: Id,
    book: Id,
    status: Status,
    currentPage: int,
    progress: int,
    startedAt: Option<int>,
    finishedAt: Option<int>,
    lastReadAt: int,
    notes: seq<Note>,
    highlights: seq<Highlight>,
    createdAt: int,
    updatedAt: int)

  /** The schema's bound on the percentage field. */
  predicate ValidProgress(p: Progress) {
    0 <= p.progress <= 100
  }

  /** A document created with only the required references, at time `now`:
      every default of the schema. */
  function DefaultProgress(id: Id, user: Id, book: Id, now: int): (p: Progress)
    ensures ValidProgress(p)
    ensures p.status == WantToRead && p.currentPage == 0 && p.progress == 0
    ensures p.startedAt.None? && p.finishedAt.None? && p.lastReadAt == now
    ensures p.notes == [] && p.highlights == []
  {
    Progress(id, user, book, WantToRead, 0, 0, None, None, now, [], [], now, now)
  }

  /** At most one record per (user, book) pair. */
  predicate UniquePairs(ps: seq<Progress>) {
    forall i, j :: 0 <= i < j < |ps| ==> (ps[i].user, ps[i].book) != (ps[j].user, ps[j].book)
  }
}
