/**
  * Converting the first pages of a PDF to images for the vision model.
  *
  * The PDF library is replaced by a value: a document that cannot be opened,
  * or an opened document with its encryption flag and, for each page, the
  * encoded image that rendering it produces, or `None` when rendering that
  * page raises.
  */
module PageRender {
  import opened Wrappers

  /** A base64-encoded PNG image. */
  type Image = string

  datatype PdfDoc =
    | Unopenable
    | Pdf(encrypted: bool, pages: seq<Option<Image>>)

  /** `min(len(doc), max_pages)`, as a count of loop iterations of
      `range(...)`: a negative bound renders nothing. */
  function PagesToRender(pageCount: nat, maxPages: int): (n: nat)
    ensures n <= pageCount && n <= (if maxPages < 0 then 0 else maxPages)
    ensures n == pageCount || n == maxPages || (maxPages < 0 && n == 0)
  {
    if maxPages < 0 then 0 else if pageCount <= maxPages then pageCount else maxPages
  }

  /** The images of the pages that rendered, in page order. */
  function Rendered(pages: seq<Option<Image>>): seq<Image> {
    if pages == [] then []
    else
      var last := pages[|pages| - 1];
      Rendered(pages[..|pages| - 1]) + (if last.Some? then [last.value] else [])
  }

  /** The list `convert_pdf_pages_to_images` returns. */
  function Converted(doc: PdfDoc, maxPages: int): seq<Image> {
    match doc
    case Unopenable => []
    case Pdf(encrypted, pages) =>
      if encrypted then [] else Rendered(pages[..PagesToRender(|pages|, maxPages)])
  }

  /** The conversion loop over the first pages, skipping pages that fail. */
  method ConvertPdfPagesToImages(doc: PdfDoc, maxPages: int) returns (images: seq<Image>)
    ensures images == Converted(doc, maxPages)
  {
    if doc.Unopenable? || doc.encrypted {
      return [];
    }
    var pages := doc.pages;
    var n := PagesToRender(|pages|, maxPages);
    images := [];
    for pageNum := 0 to n
      invariant images == Rendered(pages[..pageNum])
    {
      assert pages[..pageNum + 1][..pageNum] == pages[..pageNum];
      match pages[pageNum] {
        case Some(img) => images := images + [img];
        case None =>
      }
    }
  }

  // ---------------------------------------------------------------------------
  // Properties
  // ---------------------------------------------------------------------------

  /** Rendering distributes over concatenation: the images of earlier pages
      come before those of later pages. */
  lemma {:induction false} RenderedAppend(a: seq<Option<Image>>, b: seq<Option<Image>>)
    ensures Rendered(a + b) == Rendered(a) + Rendered(b)
    decreases |b|
  {
    if b == [] {
      assert a + b == a;
    } else {
      assert (a + b)[..|a + b| - 1] == a + b[..|b| - 1];
      RenderedAppend(a, b[..|b| - 1]);
    }
  }

  /** A page that fails to render is skipped and the others are kept. */
  lemma SkipFailedPage(a: seq<Option<Image>>, b: seq<Option<Image>>)
    ensures Rendered(a + [None] + b) == Rendered(a) + Rendered(b)
  {
    RenderedAppend(a + [None], b);
    RenderedAppend(a, [None]);
    var none: seq<Option<Image>> := [None];
    assert none[..0] == [];
    assert Rendered(none) == [];
  }

  /** There is at most one image per page. */
  lemma {:induction false} RenderedLength(pages: seq<Option<Image>>)
    ensures |Rendered(pages)| <= |pages|
    ensures |Rendered(pages)| == |pages| <==> forall i :: 0 <= i < |pages| ==> pages[i].Some?
  {
    if pages != [] {
      var init := pages[..|pages| - 1];
      RenderedLength(init);
      assert forall i :: 0 <= i < |init| ==> init[i] == pages[i];
    }
  }

  /** Every image is the rendering of one of the pages. */
  lemma {:induction false} RenderedFromPages(pages: seq<Option<Image>>)
    ensures forall img :: img in Rendered(pages) ==> Some(img) in pages
  {
    if pages != [] {
      var init := pages[..|pages| - 1];
      RenderedFromPages(init);
      assert forall x :: x in init ==> x in pages;
    }
  }

  /** At most `min(page_count, max_pages)` images; none for an encrypted or
      unreadable document; one per page when every page renders. */
  lemma ConvertedBound(doc: PdfDoc, maxPages: int)
    ensures doc.Unopenable? || doc.encrypted ==> Converted(doc, maxPages) == []
    ensures doc.Pdf? ==>
      |Converted(doc, maxPages)| <= PagesToRender(|doc.pages|, maxPages)
    ensures doc.Pdf? && !doc.encrypted && (forall i :: 0 <= i < |doc.pages| ==> doc.pages[i].Some?) ==>
      |Converted(doc, maxPages)| == PagesToRender(|doc.pages|, maxPages)
  {
    if doc.Pdf? {
      var prefix := doc.pages[..PagesToRender(|doc.pages|, maxPages)];
      RenderedLength(prefix);
      assert forall i :: 0 <= i < |prefix| ==> prefix[i] == doc.pages[i];
    }
  }
}
