/**
  * The plain-text classifier: read the first pages of each PDF in a folder,
  * ask the chat model for a document type, and keep the first type name
  * that occurs in the reply.
  *
  * The PDF reader and the chat endpoint are parameters, and so is the list
  * of document type names (the enumeration is defined outside this script).
  */
module SimpleClassifier {
  import opened Wrappers
  import opened PyStr

  // ---------------------------------------------------------------------------
  // extract_text_from_pdf
  // ---------------------------------------------------------------------------

  /** At most this many pages are read. */
  const MaxPages := 3

  /** What PyPDF2 gives for a file: an error on opening, or each page's text
      (`None` when extracting that page raises). */
  datatype PdfReader = ReaderFailed | Reader(pages: seq<Option<string>>)

  /** `min(3, len(pdf_reader.pages))`. */
  function PagesRead(pageCount: nat): (n: nat)
    ensures n <= MaxPages && n <= pageCount && (n == MaxPages || n == pageCount)
  {
    if pageCount < MaxPages then pageCount else MaxPages
  }

  /** Each page's text followed by a newline. */
  function JoinPages(texts: seq<string>): string {
    if texts == [] then "" else JoinPages(texts[..|texts| - 1]) + texts[|texts| - 1] + "\n"
  }

  /** Every page of the list was read without error. */
  predicate AllRead(pages: seq<Option<string>>) {
    forall i :: 0 <= i < |pages| ==> pages[i].Some?
  }

  /** The texts of pages that were all read. */
  function Texts(pages: seq<Option<string>>): (ts: seq<string>)
    requires AllRead(pages)
    ensures |ts| == |pages|
  {
    if pages == [] then [] else Texts(pages[..|pages| - 1]) + [pages[|pages| - 1].value]
  }

  /** `extract_text_from_pdf`: "" when the file or any page read fails. */
  function PdfText(reader: PdfReader): string {
    match reader
    case ReaderFailed => ""
    case Reader(pages) =>
      var first := pages[..PagesRead(|pages|)];
      if AllRead(first) then JoinPages(Texts(first)) else ""
  }

  /** The page loop; an exception from any page ends it with "". */
  method ExtractTextFromPdf(reader: PdfReader) returns (text: string)
    ensures text == PdfText(reader)
  {
    if reader.ReaderFailed? {
      return "";
    }
    var pages := reader.pages;
    var maxPages := PagesRead(|pages|);
    text := "";
    for pageNum := 0 to maxPages
      invariant AllRead(pages[..pageNum])
      invariant text == JoinPages(Texts(pages[..pageNum]))
    {
      if pages[pageNum].None? {
        assert !AllRead(pages[..maxPages]) by {
          assert pages[..maxPages][pageNum] == pages[pageNum];
        }
        return "";
      }
      PageStep(pages, pageNum);
      text := text + pages[pageNum].value + "\n";
    }
  }

  /** Reading one more page adds its text and a newline. */
  lemma PageStep(pages: seq<Option<string>>, k: nat)
    requires k < |pages| && AllRead(pages[..k]) && pages[k].Some?
    ensures AllRead(pages[..k + 1])
    ensures JoinPages(Texts(pages[..k + 1])) == JoinPages(Texts(pages[..k])) + pages[k].value + "\n"
  {
    var prefix := pages[..k + 1];
    assert prefix[..k] == pages[..k];
    var ts := Texts(pages[..k]);
    assert Texts(prefix) == ts + [pages[k].value];
    assert (ts + [pages[k].value])[..|ts|] == ts;
  }

  /** The text is empty exactly when the file or one of the first pages
      could not be read, or the file has no page; otherwise it holds the
      first `min(3, page_count)` page texts, each followed by a newline. */
  lemma PdfTextFacts(reader: PdfReader)
    ensures PdfText(reader) == "" <==>
      reader.ReaderFailed? || PagesRead(|reader.pages|) == 0 ||
      !AllRead(reader.pages[..PagesRead(|reader.pages|)])
    ensures reader.Reader? && AllRead(reader.pages[..PagesRead(|reader.pages|)]) ==>
      |PdfText(reader)| >= PagesRead(|reader.pages|) &&
      PdfText(reader) == JoinPages(Texts(reader.pages[..PagesRead(|reader.pages|)]))
  {
    if reader.Reader? {
      var first := reader.pages[..PagesRead(|reader.pages|)];
      if AllRead(first) {
        JoinPagesLength(Texts(first));
      }
    }
  }

  /** Each page adds at least its newline; a page list joins to its texts
      with a newline after each, one page after another. */
  lemma {:induction false} JoinPagesLength(texts: seq<string>)
    ensures |JoinPages(texts)| >= |texts|
    ensures texts != [] ==> JoinPages(texts)[|JoinPages(texts)| - 1] == '\n'
  {
    if texts != [] {
      JoinPagesLength(texts[..|texts| - 1]);
    }
  }

  /** Joining distributes over concatenation. */
  lemma {:induction false} JoinPagesAppend(a: seq<string>, b: seq<string>)
    ensures JoinPages(a + b) == JoinPages(a) + JoinPages(b)
    decreases |b|
  {
    if b == [] {
      assert a + b == a;
    } else {
      assert (a + b)[..|a + b| - 1] == a + b[..|b| - 1];
      JoinPagesAppend(a, b[..|b| - 1]);
      assert JoinPages(b) == JoinPages(b[..|b| - 1]) + b[|b| - 1] + "\n";
    }
  }

  // ---------------------------------------------------------------------------
  // classify_document
  // ---------------------------------------------------------------------------

  /** Only this many characters of the text go into the prompt. */
  const PromptChars := 4000

  /** `document_text[:4000]`. */
  function PromptExcerpt(text: string): (e: string)
    ensures e <= text && |e| <= PromptChars
    ensures |text| <= PromptChars ==> e == text
    ensures |text| > PromptChars ==> |e| == PromptChars
  {
    if |text| <= PromptChars then text else text[..PromptChars]
  }

  /** `next((t for t in DocumentType if t.name in classification), None)`. */
  function FirstMatch(names: seq<string>, reply: string): (k: Option<nat>)
    ensures k.Some? ==> k.value < |names| && Contains(reply, names[k.value])
    ensures k.Some? ==> forall j :: 0 <= j < k.value ==> !Contains(reply, names[j])
    ensures k.None? ==> forall j :: 0 <= j < |names| ==> !Contains(reply, names[j])
  {
    if names == [] then None
    else if Contains(reply, names[0]) then Some(0)
    else
      var k := FirstMatch(names[1..], reply);
      if k.None? then None else Some(k.value + 1)
  }

  /** The label for a reply from the model, or for a failed call (`None`). */
  function Classification(names: seq<string>, reply: Option<string>): string {
    if reply.None? then "ERROR"
    else
      var k := FirstMatch(names, Strip(reply.value));
      if k.Some? then names[k.value] else "UNKNOWN"
  }

  /** `classify_document`: `chat(file_name, excerpt)` is the model's reply to
      the prompt built from the file name and the excerpt, or `None` when
      the call raises. */
  function ClassifyDocument(names: seq<string>, text: string, fileName: string,
                            chat: (string, string) -> Option<string>): string {
    Classification(names, chat(fileName, PromptExcerpt(text)))
  }

  /**
    * The label is a type name, "UNKNOWN" or "ERROR": "ERROR" exactly when the
    * call fails; otherwise the first type, in declaration order, whose name
    * occurs in the stripped reply, and "UNKNOWN" exactly when none does.
    */
  lemma ClassificationFacts(names: seq<string>, reply: Option<string>)
    ensures var c := Classification(names, reply);
      c in names || c == "UNKNOWN" || c == "ERROR"
    ensures reply.None? ==> Classification(names, reply) == "ERROR"
    ensures reply.Some? && (forall j :: 0 <= j < |names| ==> !Contains(Strip(reply.value), names[j])) ==>
      Classification(names, reply) == "UNKNOWN"
    ensures reply.Some? && (exists j :: 0 <= j < |names| && Contains(Strip(reply.value), names[j])) ==>
      exists i :: 0 <= i < |names| && Classification(names, reply) == names[i] &&
        Contains(Strip(reply.value), names[i]) &&
        forall j :: 0 <= j < i ==> !Contains(Strip(reply.value), names[j])
  {
    if reply.Some? {
      var k := FirstMatch(names, Strip(reply.value));
      if k.Some? {
        assert Classification(names, reply) == names[k.value];
      }
    }
  }

  /** A reply that names the `i`-th type, and none before it, is given that
      type. */
  lemma FirstNameWins(names: seq<string>, reply: string, i: nat)
    requires i < |names| && Contains(Strip(reply), names[i])
    requires forall j :: 0 <= j < i ==> !Contains(Strip(reply), names[j])
    ensures Classification(names, Some(reply)) == names[i]
  {
    var k := FirstMatch(names, Strip(reply));
    assert k.Some?;
    assert !(k.value < i) && !(k.value > i);
  }

  // ---------------------------------------------------------------------------
  // main
  // ---------------------------------------------------------------------------

  /** The folder the script lists. */
  const DocsFolder := "/Users/nicholasclarke/Downloads/DOCS/New Folder With Items"

  /** The label of a file whose text could not be read. */
  const ExtractionError := "ERROR_EXTRACTING_TEXT"

  /** One row of the output CSV. */
  datatype ResultRow = ResultRow(fileName: string, classification: string, filePath: string)

  /** The names in the listing that end in `.pdf`, in any case, in order. */
  function PdfNames(listing: seq<string>): (ps: seq<string>)
    ensures |ps| <= |listing|
    ensures forall i :: 0 <= i < |ps| ==> HasPdfExtension(ps[i]) && ps[i] in listing
  {
    if listing == [] then []
    else
      var last := listing[|listing| - 1];
      var init := PdfNames(listing[..|listing| - 1]);
      assert forall x :: x in listing[..|listing| - 1] ==> x in listing;
      init + (if HasPdfExtension(last) then [last] else [])
  }

  /** `os.path.join(docs_folder, name)` for a name from the listing. */
  function PathOf(name: string): string {
    DocsFolder + "/" + name
  }

  /** The row for one PDF file. */
  function RowFor(names: seq<string>, name: string, readers: string -> PdfReader,
                  chat: (string, string) -> Option<string>): ResultRow {
    var text := PdfText(readers(PathOf(name)));
    ResultRow(name, if text != "" then ClassifyDocument(names, text, name, chat) else ExtractionError,
              PathOf(name))
  }

  /** The body of the loop of `main` for one PDF file. */
  method ClassifyFile(names: seq<string>, pdfFile: string, readers: string -> PdfReader,
                      chat: (string, string) -> Option<string>)
    returns (row: ResultRow)
    ensures row == RowFor(names, pdfFile, readers, chat)
  {
    var pdfPath := DocsFolder + "/" + pdfFile;
    var documentText := ExtractTextFromPdf(readers(pdfPath));
    if documentText != "" {
      var documentType := ClassifyDocument(names, documentText, pdfFile, chat);
      row := ResultRow(pdfFile, documentType, pdfPath);
    } else {
      row := ResultRow(pdfFile, ExtractionError, pdfPath);
    }
  }

  /** The loop of `main`: one row per PDF file, in listing order. */
  method ClassifyFolder(names: seq<string>, listing: seq<string>, readers: string -> PdfReader,
                        chat: (string, string) -> Option<string>)
    returns (results: seq<ResultRow>)
    ensures |results| == |PdfNames(listing)|
    ensures forall i :: 0 <= i < |results| ==> results[i] == RowFor(names, PdfNames(listing)[i], readers, chat)
  {
    var pdfFiles := PdfNames(listing);
    results := [];
    for i := 0 to |pdfFiles|
      invariant |results| == i
      invariant forall j :: 0 <= j < i ==> results[j] == RowFor(names, pdfFiles[j], readers, chat)
    {
      var row := ClassifyFile(names, pdfFiles[i], readers, chat);
      results := results + [row];
    }
  }

  /** Every row names a PDF of the listing; its label is the extraction
      error exactly when no text was read, and otherwise a type name,
      "UNKNOWN" or "ERROR". */
  lemma RowFacts(names: seq<string>, name: string, readers: string -> PdfReader,
                 chat: (string, string) -> Option<string>)
    ensures var r := RowFor(names, name, readers, chat);
      r.fileName == name && r.filePath == PathOf(name) &&
      (PdfText(readers(PathOf(name))) == "" ==> r.classification == ExtractionError) &&
      (PdfText(readers(PathOf(name))) != "" ==>
         r.classification in names || r.classification == "UNKNOWN" || r.classification == "ERROR")
  {
    var text := PdfText(readers(PathOf(name)));
    if text != "" {
      ClassificationFacts(names, chat(name, PromptExcerpt(text)));
    }
  }

  /** Exactly the names ending in `.pdf`, in any case, are classified, in
      listing order. */
  lemma {:induction false} PdfNamesExact(listing: seq<string>)
    ensures forall x :: x in PdfNames(listing) <==> x in listing && HasPdfExtension(x)
  {
    if listing != [] {
      var init := listing[..|listing| - 1];
      PdfNamesExact(init);
      assert listing == init + [listing[|listing| - 1]];
    }
  }
}
