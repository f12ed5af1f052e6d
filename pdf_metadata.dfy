/** What the upload page reads out of a PDF before the book is created
    (client/src/utils/pdfMetadataExtractor.js): the crop that fills the
    140 x 210 cover card with the first page, the fallbacks for title, author
    and year, and the name-only variant used when no metadata is read. */
module PdfMetadata {
  import opened Wrappers
  import opened Text
  import Formatters

  const CardWidth: real := 140.0
  const CardHeight: real := 210.0

  /** The size at which the first page is rendered and where it is drawn on
      the card. */
  datatype Crop = Crop(renderWidth: real, renderHeight: real, offsetX: real, offsetY: real)

  /** A page wider than the card is scaled to the card's height and cropped at
      the sides; any other page is scaled to the card's width and cropped at
      top and bottom. Either way the rendered page keeps its aspect ratio,
      covers the whole card, and is centred on it. */
  function CropToFill(pageWidth: real, pageHeight: real): (c: Crop)
    requires pageWidth > 0.0 && pageHeight > 0.0
    ensures c.renderWidth * pageHeight == c.renderHeight * pageWidth
    ensures c.renderWidth >= CardWidth && c.renderHeight >= CardHeight
    ensures c.renderWidth == CardWidth || c.renderHeight == CardHeight
    ensures 2.0 * c.offsetX + c.renderWidth == CardWidth
    ensures 2.0 * c.offsetY + c.renderHeight == CardHeight
    ensures c.offsetX <= 0.0 && c.offsetY <= 0.0
    ensures c.offsetX == 0.0 || c.offsetY == 0.0
  {
    var pdfRatio := pageWidth / pageHeight;
    RatioFacts(pageWidth, pageHeight);
    if pdfRatio > CardWidth / CardHeight then
      WiderPage(pageWidth, pageHeight, pdfRatio);
      var renderWidth := pdfRatio * CardHeight;
      Crop(renderWidth, CardHeight, (CardWidth - renderWidth) / 2.0, 0.0)
    else
      TallerPage(pageWidth, pageHeight, pdfRatio);
      var renderHeight := CardWidth / pdfRatio;
      Crop(CardWidth, renderHeight, 0.0, (CardHeight - renderHeight) / 2.0)
  }

  lemma RatioFacts(w: real, h: real)
    requires w > 0.0 && h > 0.0
    ensures w / h > 0.0 && (w / h) * h == w
  {
  }

  lemma WiderPage(w: real, h: real, ratio: real)
    requires w > 0.0 && h > 0.0 && ratio * h == w && ratio > CardWidth / CardHeight
    ensures ratio * CardHeight > CardWidth
    ensures (ratio * CardHeight) * h == CardHeight * w
  {
  }

  lemma TallerPage(w: real, h: real, ratio: real)
    requires w > 0.0 && h > 0.0 && ratio > 0.0 && ratio * h == w && ratio <= CardWidth / CardHeight
    ensures CardWidth / ratio >= CardHeight
    ensures CardWidth * h == (CardWidth / ratio) * w
  {
    var q := CardWidth / ratio;
    assert q * ratio == CardWidth;
    assert q * w == q * (ratio * h) == (q * ratio) * h;
    assert CardHeight * ratio <= CardWidth;
  }

  /** The scale handed to the renderer: the page's native width times it is the
      render width, and its native height times it is the render height. */
  function RenderScale(pageWidth: real, pageHeight: real): (scale: real)
    requires pageWidth > 0.0 && pageHeight > 0.0
    ensures scale > 0.0
    ensures scale * pageWidth == CropToFill(pageWidth, pageHeight).renderWidth
    ensures scale * pageHeight == CropToFill(pageWidth, pageHeight).renderHeight
  {
    var c := CropToFill(pageWidth, pageHeight);
    var scale := c.renderWidth / pageWidth;
    assert scale * pageWidth == c.renderWidth;
    assert scale * pageHeight * pageWidth == c.renderHeight * pageWidth by {
      assert scale * pageHeight * pageWidth == (scale * pageWidth) * pageHeight;
    }
    ScaleCancel(scale * pageHeight, c.renderHeight, pageWidth);
    scale
  }

  lemma ScaleCancel(a: real, b: real, w: real)
    requires w > 0.0 && a * w == b * w
    ensures a == b
  {
  }

  /** The document information dictionary; an empty string is a missing entry,
      and `creationYear` is the year of `CreationDate` when there is one. */
  datatype PdfInfo = PdfInfo(title: string, author: string, creationYear: Option<int>)

  /** A parsed PDF as the extractor sees it. */
  datatype PdfDocument = PdfDocument(info: PdfInfo, numPages: nat, pageWidth: real, pageHeight: real)

  /** What the upload form is filled from. */
  datatype BookMetadata = BookMetadata(
    title: string, author: string, pages: nat, coverImage: Option<string>, publishedYear: int)

  const UntitledBook: string := "Untitled Book"
  const UnknownAuthor: string := "Unknown Author"

  /** The file name with the first `.pdf` removed, as `name.replace('.pdf', '')`. */
  function NameWithoutPdf(fileName: string): string {
    ReplaceFirst(fileName, ".pdf", "")
  }

  /** `extractPDFMetadata`: `None` when the file cannot be read or parsed
      (`doc` is `None`); otherwise the metadata title, else the file name
      without `.pdf`, else "Untitled Book"; the metadata author, else
      "Unknown Author"; the page count; the rendered card image; and the
      creation year, else the current year. */
  function ExtractPdfMetadata(doc: Option<PdfDocument>, fileName: string, coverImage: string, currentYear: int)
    : (m: Option<BookMetadata>)
    ensures m.None? <==> doc.None?
    ensures m.Some? ==>
      && m.value.title != [] && m.value.author != []
      && (doc.value.info.title != [] ==> m.value.title == doc.value.info.title)
      && (doc.value.info.title == [] && NameWithoutPdf(fileName) != [] ==> m.value.title == NameWithoutPdf(fileName))
      && (doc.value.info.title == [] && NameWithoutPdf(fileName) == [] ==> m.value.title == UntitledBook)
      && (doc.value.info.author != [] ==> m.value.author == doc.value.info.author)
      && (doc.value.info.author == [] ==> m.value.author == UnknownAuthor)
      && m.value.pages == doc.value.numPages
      && m.value.coverImage == Some(coverImage)
      && m.value.publishedYear == doc.value.info.creationYear.GetOr(currentYear)
  {
    match doc
    case None => None
    case Some(d) =>
      var candidates := [d.info.title, NameWithoutPdf(fileName), UntitledBook];
      var authors := [d.info.author, UnknownAuthor];
      assert candidates[2] != [] && authors[1] != [];
      assert d.info.title == [] && candidates[1] != [] ==> Formatters.FirstNonEmpty(candidates) == candidates[1] by {
        if d.info.title == [] && candidates[1] != [] {
          Formatters.FirstNonEmptyPicks(candidates, 1);
        }
      }
      Some(BookMetadata(
        Formatters.FirstNonEmpty(candidates),
        Formatters.FirstNonEmpty(authors),
        d.numPages,
        Some(coverImage),
        d.info.creationYear.GetOr(currentYear)))
  }

  /** `extractBasicPDFInfo`: the title is the file name with the first `.pdf`
      removed and every underscore turned into a space; there is no fallback
      for an empty name. */
  function ExtractBasicPdfInfo(fileName: string, currentYear: int): (m: BookMetadata)
    ensures '_' !in m.title
    ensures |m.title| == |NameWithoutPdf(fileName)|
    ensures var name := NameWithoutPdf(fileName);
      forall i :: 0 <= i < |name| ==> m.title[i] == if name[i] == '_' then ' ' else name[i]
    ensures m.author == [] && m.pages == 0 && m.coverImage.None? && m.publishedYear == currentYear
  {
    var title := ReplaceChar(NameWithoutPdf(fileName), '_', ' ');
    assert forall i :: 0 <= i < |title| ==> title[i] != '_';
    BookMetadata(title, [], 0, None, currentYear)
  }

  /** For a plain `name.pdf` the title is the name with underscores as spaces. */
  lemma BasicTitleOfPdfName(stem: string, currentYear: int)
    requires '.' !in stem
    ensures ExtractBasicPdfInfo(stem + ".pdf", currentYear).title == ReplaceChar(stem, '_', ' ')
  {
    var s := stem + ".pdf";
    assert OccursAt(s, ".pdf", |stem|);
    var found := IndexOf(s, ".pdf");
    assert found.Some?;
    if found.value < |stem| {
      NoPdfInsideStem(stem, found.value);
    }
    assert s[..|stem|] + "" + s[|stem| + 4..] == stem;
  }

  lemma NoPdfInsideStem(stem: string, k: nat)
    requires '.' !in stem && k < |stem|
    ensures !OccursAt(stem + ".pdf", ".pdf", k)
  {
    var s := stem + ".pdf";
    assert s[k] == stem[k];
  }
}
