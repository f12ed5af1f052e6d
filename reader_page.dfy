/** The PDF reader page (client/src/pages/Reader.jsx): page navigation by
    buttons, arrow keys, the page box and outline links; the zoom steps; and
    loading the book, which makes a relative eBook address absolute. */
module ReaderPage {
  import opened Wrappers
  import opened Text

  const BackendOrigin: string := "http://localhost:5000"
  const NoEbookUrl: string := "No eBook URL found for this book."
  const LoadFailed: string := "Failed to load book data."

  const MinScale: real := 0.5
  const MaxScale: real := 3.0
  const ZoomStep: real := 0.2

  /** `changePage`: the page moved by `offset`, raised to 1, and lowered to
      the page count when the count is known (a count of 0 counts as
      unknown). */
  function ChangePage(prev: int, offset: int, numPages: Option<nat>): (next: int)
    ensures next >= 1
    ensures numPages.Some? && numPages.value > 0 ==> next <= numPages.value
    ensures 1 <= prev + offset && (numPages.None? || numPages.value == 0 || prev + offset <= numPages.value) ==>
      next == prev + offset
    ensures prev + offset < 1 ==> next == 1
    ensures numPages.Some? && numPages.value > 0 && prev + offset > numPages.value ==> next == numPages.value
  {
    var next := prev + offset;
    var next := if next < 1 then 1 else next;
    if numPages.Some? && numPages.value != 0 && next > numPages.value then numPages.value else next
  }

  /** From any page of a known document, one step forward and one step back
      returns to it unless it was the last page. */
  lemma ForwardThenBack(page: int, n: nat)
    requires 1 <= page < n
    ensures ChangePage(ChangePage(page, 1, Some(n)), -1, Some(n)) == page
  {
  }

  /** On the first or last page the matching arrow leaves the page unchanged. */
  lemma ArrowsStopAtEnds(n: nat)
    requires n >= 1
    ensures ChangePage(1, -1, Some(n)) == 1
    ensures ChangePage(n, 1, Some(n)) == n
  {
  }

  /** `handlePageChange`: the typed number is lowered to the page count and
      then raised to 1, so it is at least 1 even for a count of 0. Before the
      document has loaded the count is `null`, which compares as 0 and as a
      value below 1, so every input lands on page 1. */
  function TypedPage(value: int, numPages: Option<nat>): (page: int)
    ensures page >= 1
    ensures numPages.None? ==> page == 1
    ensures numPages.Some? && numPages.value >= 1 ==>
      page == (if value > numPages.value then numPages.value else if value < 1 then 1 else value)
    ensures numPages == Some(0) ==> page == 1
  {
    match numPages
    case None => 1
    case Some(n) =>
      var val := if value > n then n else value;
      if val < 1 then 1 else val
  }

  /** `zoomIn`. */
  function ZoomIn(s: real): (r: real)
    ensures r <= MaxScale
    ensures s + ZoomStep <= MaxScale ==> r == s + ZoomStep
    ensures MinScale <= s <= MaxScale ==> MinScale <= r <= MaxScale
  {
    if MaxScale < s + ZoomStep then MaxScale else s + ZoomStep
  }

  /** `zoomOut`. */
  function ZoomOut(s: real): (r: real)
    ensures r >= MinScale
    ensures s - ZoomStep >= MinScale ==> r == s - ZoomStep
    ensures MinScale <= s <= MaxScale ==> MinScale <= r <= MaxScale
  {
    if MinScale > s - ZoomStep then MinScale else s - ZoomStep
  }

  /** Zooming in then out returns to the scale whenever the first step was
      not cut off at the top. */
  lemma ZoomInThenOut(s: real)
    requires MinScale + ZoomStep <= s + ZoomStep <= MaxScale
    ensures ZoomOut(ZoomIn(s)) == s
  {
  }

  /** `ebookUrl.startsWith('http') ? ebookUrl : backendOrigin + ebookUrl`. */
  function AbsoluteUrl(url: string): (r: string)
    ensures StartsWith(r, "http")
    ensures StartsWith(url, "http") ==> r == url
    ensures !StartsWith(url, "http") ==> r == BackendOrigin + url
  {
    if StartsWith(url, "http") then url else BackendOrigin + url
  }

  /** Making an address absolute twice is the same as once. */
  lemma AbsoluteUrlIdempotent(url: string)
    ensures AbsoluteUrl(AbsoluteUrl(url)) == AbsoluteUrl(url)
  {
  }

  /** Previous is disabled on page 1 or before. */
  predicate PrevDisabled(page: int) {
    page <= 1
  }

  /** Next is disabled from the last page on; before the document has loaded
      the count is `null`, which compares as 0, so Next is disabled too. */
  predicate NextDisabled(page: int, numPages: Option<nat>) {
    page >= numPages.GetOr(0)
  }

  /** From a page inside the document, an enabled Previous or Next button
      moves exactly one page. */
  lemma EnabledButtonsMoveOnePage(page: int, numPages: Option<nat>)
    requires page >= 1 && (numPages.None? || page <= numPages.value)
    ensures !PrevDisabled(page) ==> ChangePage(page, -1, numPages) == page - 1
    ensures !NextDisabled(page, numPages) ==> ChangePage(page, 1, numPages) == page + 1
  {
  }

  /** What fetching the book gave: its eBook address (`""` when it has none)
      or a failure. */
  datatype BookFetch = Fetched(ebookUrl: string) | FetchFailed

  /** A key press on the page. */
  datatype Key = ArrowLeft | ArrowRight | OtherKey

  class Reader {
    var ebookUrl: Option<string>
    var numPages: Option<nat>
    var currentPage: int
    var loading: bool
    var error: string
    var scale: real

    /** The page is at least 1 and the zoom within its bounds. */
    predicate Valid()
      reads this
    {
      currentPage >= 1 && MinScale <= scale <= MaxScale
    }

    constructor ()
      ensures Valid()
      ensures ebookUrl.None? && numPages.None? && currentPage == 1 && loading && error == "" && scale == 1.0
    {
      ebookUrl := None;
      numPages := None;
      currentPage := 1;
      loading := true;
      error := "";
      scale := 1.0;
    }

    /** Loading the book: an address is made absolute and the page reset to
        1; a book without an address, or a failed fetch, sets the error and
        no book. */
    method LoadBook(fetch: BookFetch)
      requires Valid()
      modifies this
      ensures Valid() && !loading && numPages == old(numPages) && scale == old(scale)
      ensures fetch.FetchFailed? ==> error == LoadFailed && ebookUrl == old(ebookUrl) && currentPage == old(currentPage)
      ensures fetch.Fetched? && fetch.ebookUrl == "" ==>
        error == NoEbookUrl && ebookUrl == old(ebookUrl) && currentPage == old(currentPage)
      ensures fetch.Fetched? && fetch.ebookUrl != "" ==>
        ebookUrl == Some(AbsoluteUrl(fetch.ebookUrl)) && currentPage == 1 && error == old(error)
    {
      loading := true;
      match fetch {
        case FetchFailed =>
          error := LoadFailed;
        case Fetched(url) =>
          if url == "" {
            error := NoEbookUrl;
          } else {
            ebookUrl := Some(AbsoluteUrl(url));
            currentPage := 1;
          }
      }
      loading := false;
    }

    /** `onDocumentLoadSuccess`. */
    method DocumentLoaded(n: nat)
      requires Valid()
      modifies this
      ensures Valid() && numPages == Some(n)
      ensures currentPage == old(currentPage) && scale == old(scale) && ebookUrl == old(ebookUrl)
      ensures error == old(error) && loading == old(loading)
    {
      numPages := Some(n);
    }

    /** `changePage`, behind the Previous and Next buttons. */
    method Step(offset: int)
      requires Valid()
      modifies this
      ensures Valid() && currentPage == ChangePage(old(currentPage), offset, numPages)
      ensures numPages == old(numPages) && scale == old(scale) && ebookUrl == old(ebookUrl)
      ensures error == old(error) && loading == old(loading)
    {
      var next := currentPage + offset;
      if next < 1 {
        next := 1;
      }
      if numPages.Some? && numPages.value != 0 && next > numPages.value {
        next := numPages.value;
      }
      currentPage := next;
    }

    /** The arrow keys step one page back or forward; other keys do nothing. */
    method KeyDown(key: Key)
      requires Valid()
      modifies this
      ensures Valid()
      ensures key.ArrowLeft? ==> currentPage == ChangePage(old(currentPage), -1, numPages)
      ensures key.ArrowRight? ==> currentPage == ChangePage(old(currentPage), 1, numPages)
      ensures key.OtherKey? ==> currentPage == old(currentPage)
      ensures numPages == old(numPages) && scale == old(scale) && ebookUrl == old(ebookUrl)
      ensures error == old(error) && loading == old(loading)
    {
      if key.ArrowLeft? {
        Step(-1);
      }
      if key.ArrowRight? {
        Step(1);
      }
    }

    /** `handlePageChange`, the page number box. */
    method EnterPage(value: int)
      requires Valid()
      modifies this
      ensures Valid() && currentPage == TypedPage(value, old(numPages))
      ensures numPages == old(numPages) && scale == old(scale) && ebookUrl == old(ebookUrl)
      ensures error == old(error) && loading == old(loading)
    {
      currentPage := TypedPage(value, numPages);
    }

    /** `onItemClick`: an outline link with a page number jumps to it. */
    method ItemClick(pageNumber: nat)
      requires Valid()
      modifies this
      ensures Valid() && currentPage == (if pageNumber != 0 then pageNumber else old(currentPage))
      ensures numPages == old(numPages) && scale == old(scale) && ebookUrl == old(ebookUrl)
      ensures error == old(error) && loading == old(loading)
    {
      if pageNumber != 0 {
        currentPage := pageNumber;
      }
    }

    method ZoomInClicked()
      requires Valid()
      modifies this
      ensures Valid() && scale == ZoomIn(old(scale)) && currentPage == old(currentPage)
      ensures numPages == old(numPages) && ebookUrl == old(ebookUrl)
      ensures error == old(error) && loading == old(loading)
    {
      scale := ZoomIn(scale);
    }

    method ZoomOutClicked()
      requires Valid()
      modifies this
      ensures Valid() && scale == ZoomOut(old(scale)) && currentPage == old(currentPage)
      ensures numPages == old(numPages) && ebookUrl == old(ebookUrl)
      ensures error == old(error) && loading == old(loading)
    {
      scale := ZoomOut(scale);
    }
  }
}
