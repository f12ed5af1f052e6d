/** The upload page (client/src/pages/UploadBook.jsx): the genre checkboxes,
    the checks on the chosen eBook file, filling the form from the file's
    metadata, and the guarded submit that uploads the file, creates the book
    and puts it on the reader's shelf. */
module UploadBookPage {
  import opened Wrappers
  import opened Text
  import ListOps
  import PdfMetadata

  /** 50 MiB: larger eBook files are refused before anything else happens. */
  const MaxEbookSize: nat := 50 * 1024 * 1024
  const MinDescriptionLength: nat := 50

  const FileTooLarge: string := "eBook file size must be less than 50MB"
  const PartialMetadata: string := "Could not extract full metadata. Please fill in the details manually."
  const ExtractionFailed: string := "Could not extract metadata. Please fill in manually."
  const NoGenre: string := "Please select at least one genre"
  const ShortDescription: string := "Description must be at least 50 characters"
  const NoFile: string := "Please upload an eBook file"
  const FileUploadFailed: string := "Failed to upload eBook file. Please try again."
  const BookUploadFailed: string := "Failed to upload book"
  const Uploaded: string := "Book uploaded successfully! Redirecting..."

  /** The form; `publishedYear` is `None` until a year is known. */
  datatype UploadForm = UploadForm(
    title: string, author: string, description: string, genres: seq<string>,
    pages: nat, publishedYear: Option<int>, language: string, coverImage: string)

  const EmptyForm: UploadForm := UploadForm("", "", "", [], 0, None, "English", "")

  /** The inputs wired to `handleChange`. The page count is shown read-only
      and there is no year input, so those two change only by extraction. */
  datatype TextField = Title | Author | Description | Language

  function WithText(form: UploadForm, f: TextField, value: string): UploadForm {
    match f
    case Title => form.(title := value)
    case Author => form.(author := value)
    case Description => form.(description := value)
    case Language => form.(language := value)
  }

  /** The chosen file as the browser describes it. */
  datatype EbookFile = EbookFile(name: string, mimeType: string, size: nat)

  /** The filter `g => g !== genre`. */
  function Other(genre: string): string -> bool {
    g => g != genre
  }

  /** `handleGenreChange`: a ticked genre is unticked, which removes every
      occurrence of it; an unticked one is appended. */
  function ToggleGenre(genres: seq<string>, genre: string): (r: seq<string>)
    ensures genre in genres ==> genre !in r
    ensures genre in genres ==> forall g :: g != genre ==> (g in r <==> g in genres)
    ensures genre in genres ==> r == ListOps.Select(genres, Other(genre))
    ensures genre !in genres ==> r == genres + [genre]
  {
    if genre in genres then
      var r := ListOps.Select(genres, Other(genre));
      forall g ensures g in r <==> g in genres && g != genre {
        ListOps.SelectMembers(genres, Other(genre), g);
      }
      r
    else
      genres + [genre]
  }

  /** Ticking and unticking a genre gives back the list it started from. */
  lemma ToggleAbsentTwice(genres: seq<string>, genre: string)
    requires genre !in genres
    ensures ToggleGenre(ToggleGenre(genres, genre), genre) == genres
  {
    ListOps.SelectAppend(genres, [genre], Other(genre));
    ListOps.SelectAll(genres, Other(genre));
    assert ListOps.Select([genre], Other(genre)) == [];
  }

  /** Unticking and re-ticking a genre listed once keeps the same genres but
      moves it to the end. */
  lemma TogglePresentTwice(genres: seq<string>, genre: string, k: nat)
    requires k < |genres| && genres[k] == genre
    requires forall j :: 0 <= j < |genres| && j != k ==> genres[j] != genre
    ensures ToggleGenre(ToggleGenre(genres, genre), genre) == genres[..k] + genres[k + 1..] + [genre]
  {
    UntickSingle(genres, genre, k);
    var rest := genres[..k] + genres[k + 1..];
    assert genre !in rest by {
      forall i | 0 <= i < |rest| ensures rest[i] != genre {
        if i < k { assert rest[i] == genres[i]; } else { assert rest[i] == genres[i + 1]; }
      }
    }
  }

  lemma UntickSingle(genres: seq<string>, genre: string, k: nat)
    requires k < |genres| && genres[k] == genre
    requires forall j :: 0 <= j < |genres| && j != k ==> genres[j] != genre
    ensures ToggleGenre(genres, genre) == genres[..k] + genres[k + 1..]
  {
    assert genre in genres;
    SelectSkipsSingle(genres, genre, k);
  }

  /** Filtering out a genre listed once drops exactly its position. */
  lemma SelectSkipsSingle(genres: seq<string>, genre: string, k: nat)
    requires k < |genres| && genres[k] == genre
    requires forall j :: 0 <= j < |genres| && j != k ==> genres[j] != genre
    ensures ListOps.Select(genres, Other(genre)) == genres[..k] + genres[k + 1..]
  {
    assert forall j :: 0 <= j < |genres| && j != k ==> Other(genre)(genres[j]);
    ListOps.SelectAllBut(genres, Other(genre), k);
  }

  /** A file is read as a PDF when its type says so or its name, lower-cased,
      ends in `.pdf`. */
  predicate IsPdf(file: EbookFile) {
    file.mimeType == "application/pdf" || EndsWith(ToLower(file.name), ".pdf")
  }

  lemma PdfByName(file: EbookFile, stem: string)
    requires file.name == stem + ".PDF"
    ensures IsPdf(file)
  {
    var low := ToLower(file.name);
    assert low[|low| - 4..] == ".pdf" by {
      assert file.name[|stem|..] == ".PDF";
      forall i | 0 <= i < 4 ensures low[|stem| + i] == ".pdf"[i] {
        assert file.name[|stem| + i] == ".PDF"[i];
      }
    }
  }

  /** What reading the PDF gave: the metadata (`None` when it could not be
      read) or an exception. */
  datatype Extraction = Extracted(metadata: Option<PdfMetadata.BookMetadata>) | Threw

  /** The success banner after the form has been filled. */
  function ExtractedBanner(m: PdfMetadata.BookMetadata): string {
    "\U{2713} Extracted: \"" + m.title + "\" by " + m.author + " (" + NatToString(m.pages) + " pages)"
  }

  /** The submit checks in their order; the first one that fails is the
      message shown. */
  function SubmitError(form: UploadForm, hasFile: bool): (r: Option<string>)
    ensures r.None? <==> |form.genres| > 0 && |form.description| >= MinDescriptionLength && hasFile
    ensures |form.genres| == 0 ==> r == Some(NoGenre)
    ensures |form.genres| > 0 && |form.description| < MinDescriptionLength ==> r == Some(ShortDescription)
    ensures |form.genres| > 0 && |form.description| >= MinDescriptionLength && !hasFile ==> r == Some(NoFile)
  {
    if |form.genres| == 0 then Some(NoGenre)
    else if |form.description| < MinDescriptionLength then Some(ShortDescription)
    else if !hasFile then Some(NoFile)
    else None
  }

  /** The book sent to the server: the form, the cover actually used, and the
      stored file's URL when the upload returned one. */
  datatype BookData = BookData(form: UploadForm, coverImage: string, ebookUrl: Option<string>)

  /** The outcome of sending the file, and of creating the book (its new id,
      or the server's message, `""` when there is none). */
  datatype FileUpload = FileStored(url: string) | FileRejected
  datatype Creation = Created(id: string) | CreateFailed(message: string)

  /** The shelf entry added for a created book: "want to read", page 0. */
  datatype ShelfRequest = ShelfRequest(book: string, status: string, currentPage: nat)

  class UploadBook {
    var form: UploadForm
    var ebookFile: Option<EbookFile>
    var coverPreview: string
    var error: string
    var success: string
    var extracting: bool
    var loading: bool

    constructor ()
      ensures form == EmptyForm && ebookFile.None? && coverPreview == ""
      ensures error == "" && success == "" && !extracting && !loading
    {
      form := EmptyForm;
      ebookFile := None;
      coverPreview := "";
      error := "";
      success := "";
      extracting := false;
      loading := false;
    }

    /** `handleChange`: the named input takes the typed value; every other
        field of the form, and the rest of the page, stays as it was. */
    method HandleChange(f: TextField, value: string)
      modifies this
      ensures f == Title ==> form == old(form).(title := value)
      ensures f == Author ==> form == old(form).(author := value)
      ensures f == Description ==> form == old(form).(description := value)
      ensures f == Language ==> form == old(form).(language := value)
      ensures ebookFile == old(ebookFile) && coverPreview == old(coverPreview)
      ensures error == old(error) && success == old(success)
      ensures extracting == old(extracting) && loading == old(loading)
    {
      form := WithText(form, f, value);
    }

    /** The ticked genres change as `ToggleGenre` says; no other field does. */
    method HandleGenreChange(genre: string)
      modifies this
      ensures form == old(form).(genres := ToggleGenre(old(form.genres), genre))
      ensures ebookFile == old(ebookFile) && coverPreview == old(coverPreview)
      ensures error == old(error) && success == old(success)
      ensures extracting == old(extracting) && loading == old(loading)
    {
      form := form.(genres := ToggleGenre(form.genres, genre));
    }

    /** The effect that draws a cover once a title is known: it runs only while
        no cover is shown and no extraction is under way. */
    method RefreshCover(generated: string)
      modifies this
      ensures if old(form.title) != "" && old(coverPreview) == "" && !old(extracting)
        then coverPreview == generated && form == old(form).(coverImage := generated)
        else coverPreview == old(coverPreview) && form == old(form)
      ensures ebookFile == old(ebookFile) && error == old(error) && success == old(success)
      ensures extracting == old(extracting) && loading == old(loading)
    {
      if form.title != "" && coverPreview == "" && !extracting {
        coverPreview := generated;
        form := form.(coverImage := generated);
      }
    }

    /** `handleEbookUpload`. A file over the limit only sets the error. Any
        other file is kept; a PDF whose metadata is read fills exactly title,
        author, pages, year and cover; otherwise only the title is taken from
        the file name. */
    method HandleEbookUpload(file: Option<EbookFile>, extraction: Extraction, currentYear: int)
      modifies this
      ensures loading == old(loading)
      ensures extracting == (old(extracting) && !(file.Some? && file.value.size <= MaxEbookSize && IsPdf(file.value)))
      ensures file.None? ==>
        form == old(form) && ebookFile == old(ebookFile) && error == old(error) &&
        coverPreview == old(coverPreview) && success == old(success)
      ensures file.Some? && file.value.size > MaxEbookSize ==>
        form == old(form) && ebookFile == old(ebookFile) && error == FileTooLarge &&
        coverPreview == old(coverPreview) && success == old(success)
      ensures file.Some? && file.value.size <= MaxEbookSize ==> ebookFile == file
      ensures (file.Some? && file.value.size <= MaxEbookSize && IsPdf(file.value) &&
               extraction.Extracted? && extraction.metadata.Some?) ==>
        var m := extraction.metadata.value;
        && form == old(form).(title := m.title, author := m.author, pages := m.pages,
                              publishedYear := Some(m.publishedYear), coverImage := m.coverImage.GetOr(""))
        && coverPreview == m.coverImage.GetOr("") && success == ExtractedBanner(m) && error == ""
      ensures (file.Some? && file.value.size <= MaxEbookSize &&
               !(IsPdf(file.value) && extraction.Extracted? && extraction.metadata.Some?)) ==>
        && form == old(form).(title := PdfMetadata.ExtractBasicPdfInfo(file.value.name, currentYear).title)
        && coverPreview == old(coverPreview) && success == old(success)
        && error == (if !IsPdf(file.value) then "" else if extraction.Threw? then ExtractionFailed else PartialMetadata)
    {
      if file.None? {
        return;
      }
      var f := file.value;
      if f.size > MaxEbookSize {
        error := FileTooLarge;
        return;
      }
      ebookFile := file;
      error := "";
      if IsPdf(f) {
        extracting := true;
        match extraction {
          case Extracted(Some(m)) =>
            form := form.(title := m.title, author := m.author, pages := m.pages,
                          publishedYear := Some(m.publishedYear), coverImage := m.coverImage.GetOr(""));
            coverPreview := m.coverImage.GetOr("");
            success := ExtractedBanner(m);
          case Extracted(None) =>
            form := form.(title := PdfMetadata.ExtractBasicPdfInfo(f.name, currentYear).title);
            error := PartialMetadata;
          case Threw =>
            form := form.(title := PdfMetadata.ExtractBasicPdfInfo(f.name, currentYear).title);
            error := ExtractionFailed;
        }
        extracting := false;
      } else {
        form := form.(title := PdfMetadata.ExtractBasicPdfInfo(f.name, currentYear).title);
      }
    }

    /** `handleSubmit`. Nothing is sent unless every check passes. The book
        sent carries the form's cover, or the generated one when the form has
        none; a file URL is attached only when the upload returned a
        non-empty one; a created book is shelved as "want to read" at page 0.
        The generated cover and the two request outcomes are parameters. */
    method HandleSubmit(generatedCover: string, upload: FileUpload, creation: Creation)
      returns (sent: Option<BookData>, shelved: Option<ShelfRequest>)
      modifies this
      ensures ebookFile == old(ebookFile) && coverPreview == old(coverPreview)
      ensures extracting == old(extracting)
      ensures SubmitError(old(form), old(ebookFile).Some?).Some? ==>
        && sent.None? && shelved.None? && form == old(form) && success == "" && loading == old(loading)
        && Some(error) == SubmitError(old(form), old(ebookFile).Some?)
      ensures SubmitError(old(form), old(ebookFile).Some?).None? ==>
        && !loading
        && form == old(form).(coverImage := if old(form.coverImage) != "" then old(form.coverImage) else generatedCover)
        && (upload.FileRejected? ==> sent.None? && shelved.None? && error == FileUploadFailed && success == "")
        && (upload.FileStored? ==>
              && sent == Some(BookData(old(form), form.coverImage, if upload.url != "" then Some(upload.url) else None))
              && (creation.Created? ==>
                    shelved == Some(ShelfRequest(creation.id, "want-to-read", 0)) && success == Uploaded && error == "")
              && (creation.CreateFailed? ==>
                    && shelved.None? && success == ""
                    && error == MessageOr(creation.message, BookUploadFailed)))
      ensures sent.Some? ==> sent.value.coverImage != "" || generatedCover == ""
    {
      error := "";
      success := "";
      sent, shelved := None, None;
      var check := SubmitError(form, ebookFile.Some?);
      if check.Some? {
        error := check.value;
        return;
      }
      var cover := if form.coverImage != "" then form.coverImage else generatedCover;
      var bookForm := form;
      if form.coverImage == "" {
        form := form.(coverImage := generatedCover);
      }
      loading := true;
      match upload {
        case FileRejected =>
          error := FileUploadFailed;
          loading := false;
          return;
        case FileStored(url) =>
          sent := Some(BookData(bookForm, cover, if url != "" then Some(url) else None));
      }
      match creation {
        case Created(id) =>
          shelved := Some(ShelfRequest(id, "want-to-read", 0));
          success := Uploaded;
        case CreateFailed(message) =>
          error := MessageOr(message, BookUploadFailed);
      }
      loading := false;
    }
  }
}
