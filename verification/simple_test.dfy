/**
  * The text-based test script: read each validation document as text,
  * clean it up, send it to the chat model, and score the replies by the
  * first line that carries `Final Classification:`.
  *
  * The PDF text extractor, the text file reader and the chat endpoint are
  * parameters: what each page yields, what the file decodes to, and the
  * reply to each request.
  */
module SimpleTest {
  import opened Wrappers
  import opened PyStr
  import opened Stats
  import opened VisionExtract

  // ---------------------------------------------------------------------------
  // read_document
  // ---------------------------------------------------------------------------

  /** What PyMuPDF gives for a path ending in `.pdf`: an error on opening,
      or the encryption flag and each page's text (`None` when reading that
      page raises). */
  datatype PdfText = PdfUnreadable | PdfOpened(encrypted: bool, pageTexts: seq<Option<string>>)

  /** What reading any other path gives: an error other than a decoding
      error, its UTF-8 text, or a decoding error followed by the outcome of
      reading it as Latin-1. */
  datatype TextFile = TextUnreadable | Utf8(content: string) | NotUtf8(latin1: Option<string>)

  /** The page loop: each readable page's text followed by a newline. */
  function PagesText(pages: seq<Option<string>>): string {
    if pages == [] then ""
    else
      var last := pages[|pages| - 1];
      PagesText(pages[..|pages| - 1]) + (if last.Some? then last.value + "\n" else "")
  }

  /** True when `text.strip()` is empty. */
  predicate Blank(text: string) {
    forall i :: 0 <= i < |text| ==> IsSpace(text[i])
  }

  /** `read_document`: the document's text, or `None`. */
  function ReadDocument(path: string, pdf: PdfText, text: TextFile): Option<string> {
    if HasPdfExtension(path) then
      match pdf
      case PdfUnreadable => None
      case PdfOpened(encrypted, pages) =>
        if encrypted then None
        else
          var t := PagesText(pages);
          if Blank(t) then None else Some(t)
    else
      match text
      case TextUnreadable => None
      case Utf8(content) => if Blank(content) then None else Some(content)
      case NotUtf8(latin1) => latin1
  }

  /** The page loop of `read_document`. */
  method ExtractPages(pages: seq<Option<string>>) returns (text: string)
    ensures text == PagesText(pages)
  {
    text := "";
    for pageNum := 0 to |pages|
      invariant text == PagesText(pages[..pageNum])
    {
      assert pages[..pageNum + 1][..pageNum] == pages[..pageNum];
      match pages[pageNum] {
        case Some(pageText) => text := text + pageText + "\n";
        case None =>
      }
    }
    assert pages[..|pages|] == pages;
  }

  method ReadDocumentText(path: string, pdf: PdfText, file: TextFile) returns (r: Option<string>)
    ensures r == ReadDocument(path, pdf, file)
  {
    if HasPdfExtension(path) {
      if pdf.PdfUnreadable? || pdf.encrypted {
        return None;
      }
      var text := ExtractPages(pdf.pageTexts);
      StripEmpty(text);
      if Strip(text) == "" {
        return None;
      }
      return Some(text);
    }
    match file {
      case TextUnreadable => r := None;
      case Utf8(content) =>
        StripEmpty(content);
        r := if Strip(content) == "" then None else Some(content);
      case NotUtf8(latin1) => r := latin1;
    }
  }

  /** A document read as PDF is never blank, nor is a UTF-8 text; only the
      Latin-1 fallback can hand back blank text. An encrypted or unreadable
      PDF gives nothing. */
  lemma ReadDocumentFacts(path: string, pdf: PdfText, text: TextFile)
    ensures var r := ReadDocument(path, pdf, text);
      (r.Some? && !(!HasPdfExtension(path) && text.NotUtf8?) ==> !Blank(r.value)) &&
      (HasPdfExtension(path) && (pdf.PdfUnreadable? || pdf.encrypted) ==> r.None?) &&
      (HasPdfExtension(path) && r.Some? ==> r.value == PagesText(pdf.pageTexts))
  {
  }

  /** Every readable page contributes its text and a newline, in page order,
      and an unreadable page contributes nothing. */
  lemma {:induction false} PagesTextAppend(a: seq<Option<string>>, b: seq<Option<string>>)
    ensures PagesText(a + b) == PagesText(a) + PagesText(b)
    decreases |b|
  {
    if b == [] {
      assert a + b == a;
    } else {
      assert (a + b)[..|a + b| - 1] == a + b[..|b| - 1];
      PagesTextAppend(a, b[..|b| - 1]);
    }
  }

  /** A page whose text is `t` contributes exactly `t + "\n"`. */
  lemma PageTextOfOne(t: string)
    ensures PagesText([Some(t)]) == t + "\n"
    ensures PagesText([None]) == ""
  {
    var one: seq<Option<string>> := [Some(t)];
    assert one[..0] == [];
    var none: seq<Option<string>> := [None];
    assert none[..0] == [];
  }

  // ---------------------------------------------------------------------------
  // The clean-up of the text before it is sent
  // ---------------------------------------------------------------------------

  /** The text longer than this is cut. */
  const MaxChars := 15000

  /** The note appended to a cut text. */
  const TruncationNote := "\n[Document truncated due to length...]"

  /** `text.replace('\x00', '')`. */
  function RemoveNul(s: string): (r: string)
    ensures '\0' !in r && |r| <= |s|
    ensures '\0' !in s ==> r == s
    ensures forall c :: c != '\0' ==> (c in r <==> c in s)
  {
    if s == [] then ""
    else
      var rest := RemoveNul(s[1..]);
      assert s == [s[0]] + s[1..];
      if s[0] == '\0' then rest else [s[0]] + rest
  }

  /** `' '.join(text.split())`. */
  function Normalize(s: string): string {
    JoinSpace(Words(s))
  }

  /** Keep the first `MaxChars` characters of a longer text and add the note. */
  function Truncate(s: string): string {
    if |s| > MaxChars then s[..MaxChars] + TruncationNote else s
  }

  /** The text that is sent to the model. */
  function Cleaned(s: string): string {
    Truncate(Normalize(RemoveNul(s)))
  }

  /** Normalised text is single-space separated words with no whitespace at
      either end; normalising it again changes nothing; it keeps every
      non-whitespace character of the input, in order. */
  lemma NormalizeFacts(s: string)
    ensures IsNormalized(Normalize(s))
    ensures Normalize(Normalize(s)) == Normalize(s)
    ensures NonSpace(Normalize(s)) == NonSpace(s)
    ensures Normalize(s) == [] <==> Blank(s)
  {
    var ws := Words(s);
    WordsAreWords(s);
    JoinIsNormalized(ws);
    WordsOfJoin(ws);
    JoinKeepsText(ws);
    WordsKeepText(s);
    SpaceRunFacts(s);
    if Blank(s) {
      assert SpaceRun(s) == |s|;
    } else {
      var i :| 0 <= i < |s| && !IsSpace(s[i]);
      assert SpaceRun(s) < |s|;
    }
  }

  /** A character that is not whitespace is in a text exactly when it is in
      its non-whitespace characters. */
  lemma {:induction false} NonSpaceMembers(s: string, c: char)
    requires !IsSpace(c)
    ensures c in s <==> c in NonSpace(s)
  {
    if s != [] {
      NonSpaceMembers(s[1..], c);
      assert s == [s[0]] + s[1..];
    }
  }

  /** Text of at most `MaxChars` characters is unchanged; a longer one
      becomes its first `MaxChars` characters and the note. */
  lemma TruncateFacts(s: string)
    ensures |s| <= MaxChars ==> Truncate(s) == s
    ensures |s| > MaxChars ==> Truncate(s)[..MaxChars] == s[..MaxChars] &&
                               Truncate(s)[MaxChars..] == TruncationNote
    ensures |Truncate(s)| <= MaxChars + |TruncationNote|
  {
  }

  /** The text sent carries no NUL character, is normalised when it is not
      cut, and a text that is already clean and short is sent as it is. */
  lemma CleanedFacts(s: string)
    ensures '\0' !in Cleaned(s)
    ensures |Normalize(RemoveNul(s))| <= MaxChars ==> IsNormalized(Cleaned(s))
    ensures '\0' !in s && IsNormalized(s) && |s| <= MaxChars ==> Cleaned(s) == s
  {
    CleanedHasNoNul(s);
    if '\0' !in s && IsNormalized(s) && |s| <= MaxChars {
      CleanTextUnchanged(s);
    }
  }

  /** The text sent carries no NUL character and is normalised when it is
      not cut. */
  lemma CleanedHasNoNul(s: string)
    ensures '\0' !in Cleaned(s)
    ensures |Normalize(RemoveNul(s))| <= MaxChars ==> IsNormalized(Cleaned(s))
  {
    var t := RemoveNul(s);
    var n := Normalize(t);
    NormalizeFacts(t);
    assert !IsSpace('\0');
    NonSpaceMembers(n, '\0');
    NonSpaceMembers(t, '\0');
    assert '\0' !in n;
    if |n| > MaxChars {
      var c := Cleaned(s);
      assert c == n[..MaxChars] + TruncationNote;
      assert '\0' !in n[..MaxChars] by {
        assert forall i :: 0 <= i < MaxChars ==> n[..MaxChars][i] == n[i];
      }
      assert '\0' !in TruncationNote;
    }
  }

  /** Text without NUL that is normalised and short is sent as it is. */
  lemma CleanTextUnchanged(s: string)
    requires '\0' !in s && IsNormalized(s) && |s| <= MaxChars
    ensures Cleaned(s) == s
  {
    NormalizedIsFixed(s);
  }

  // ---------------------------------------------------------------------------
  // The document loop
  // ---------------------------------------------------------------------------

  /** A validation row: `file_path` and its `classification`. */
  type Row = (string, string)

  /** What the chat client returns: a dictionary with `choices`, some other
      value (which the script turns into a string), or an exception. */
  datatype ChatReply = Choices(content: string) | OtherValue(repr: string) | ChatRaised

  /** One stored result. */
  datatype TestResult = TestResult(filename: string, actualType: string, response: string)

  /** The text of a reply, or `None` when the call raised. */
  function ResponseText(reply: ChatReply): Option<string> {
    match reply
    case Choices(content) => Some(content)
    case OtherValue(repr) => Some(repr)
    case ChatRaised => None
  }

  /** The files, by path; `chat(i, text)` is the reply to the request sent
      for the `i`-th row with the cleaned `text`. */
  datatype Sources = Sources(
    pdfs: string -> PdfText, texts: string -> TextFile, chat: (nat, string) -> ChatReply)

  /** What row `i` adds to the results: nothing when the document gives no
      text or only whitespace, or when the call raises. */
  function RowResult(src: Sources, row: Row, i: nat): Option<TestResult> {
    var path := row.0;
    var doc := ReadDocument(path, src.pdfs(path), src.texts(path));
    if doc.None? || Blank(doc.value) then None
    else
      var reply := ResponseText(src.chat(i, Cleaned(doc.value)));
      if reply.None? then None else Some(TestResult(path, row.1, reply.value))
  }

  /** The results of the first `n` rows, in row order. */
  function Collected(src: Sources, rows: seq<Row>, n: nat): seq<TestResult>
    requires n <= |rows|
  {
    if n == 0 then []
    else
      var r := RowResult(src, rows[n - 1], n - 1);
      Collected(src, rows, n - 1) + (if r.Some? then [r.value] else [])
  }

  /** The body of the document loop for one row. */
  method TestRow(src: Sources, row: Row, i: nat) returns (r: Option<TestResult>)
    ensures r == RowResult(src, row, i)
  {
    var path := row.0;
    var docText := ReadDocumentText(path, src.pdfs(path), src.texts(path));
    if docText.Some? {
      StripEmpty(docText.value);
    }
    if docText.None? || Strip(docText.value) == "" {
      return None;
    }
    var text := RemoveNul(docText.value);
    text := Normalize(text);
    if |text| > MaxChars {
      text := text[..MaxChars] + TruncationNote;
    }
    match src.chat(i, text) {
      case Choices(content) => r := Some(TestResult(path, row.1, content));
      case OtherValue(repr) => r := Some(TestResult(path, row.1, repr));
      case ChatRaised => r := None;
    }
  }

  /** The document loop of `test_documents`. */
  method CollectResults(src: Sources, rows: seq<Row>) returns (results: seq<TestResult>)
    ensures results == Collected(src, rows, |rows|)
  {
    results := [];
    for i := 0 to |rows|
      invariant results == Collected(src, rows, i)
    {
      var r := TestRow(src, rows[i], i);
      if r.Some? {
        results := results + [r.value];
      }
    }
  }

  /** At most one result per row; every result names its row's file and
      expected type; a row whose document gives no text is skipped. */
  lemma {:induction false} CollectedFacts(src: Sources, rows: seq<Row>, n: nat)
    requires n <= |rows|
    ensures |Collected(src, rows, n)| <= n
    ensures forall r :: r in Collected(src, rows, n) ==>
      exists i :: 0 <= i < n && r.filename == rows[i].0 && r.actualType == rows[i].1
  {
    if n > 0 {
      CollectedFacts(src, rows, n - 1);
    }
  }

  /** A row whose document gives no text, or only whitespace, adds nothing. */
  lemma SkippedRow(src: Sources, rows: seq<Row>, i: nat)
    requires i < |rows|
    requires var p := rows[i].0;
             var doc := ReadDocument(p, src.pdfs(p), src.texts(p));
             doc.None? || Blank(doc.value)
    ensures Collected(src, rows, i + 1) == Collected(src, rows, i)
  {
  }

  /** A row whose document has text and whose call returns sends the cleaned
      text and stores the reply. */
  lemma KeptRow(src: Sources, rows: seq<Row>, i: nat)
    requires i < |rows|
    requires var p := rows[i].0;
             var doc := ReadDocument(p, src.pdfs(p), src.texts(p));
             doc.Some? && !Blank(doc.value) && !src.chat(i, Cleaned(doc.value)).ChatRaised?
    ensures var p := rows[i].0;
            var doc := ReadDocument(p, src.pdfs(p), src.texts(p));
            Collected(src, rows, i + 1) ==
              Collected(src, rows, i) +
              [TestResult(p, rows[i].1, ResponseText(src.chat(i, Cleaned(doc.value))).value)]
  {
  }

  // ---------------------------------------------------------------------------
  // Scoring the replies
  // ---------------------------------------------------------------------------

  /** The index of the first line that contains the marker. */
  function FirstMarkerLine(lines: seq<string>): (k: Option<nat>)
    ensures k.Some? ==> k.value < |lines| && Contains(lines[k.value], Marker) &&
                        forall j :: 0 <= j < k.value ==> !Contains(lines[j], Marker)
    ensures k.None? ==> forall j :: 0 <= j < |lines| ==> !Contains(lines[j], Marker)
  {
    if lines == [] then None
    else if Contains(lines[0], Marker) then Some(0)
    else
      var k := FirstMarkerLine(lines[1..]);
      if k.None? then None else Some(k.value + 1)
  }

  /** The prediction read from a reply: the stripped text after the marker
      on the first line that has one, up to a second marker. */
  function Prediction(response: string): Option<string> {
    var lines := SplitOn(response, '\n');
    var k := FirstMarkerLine(lines);
    if k.None? then None else Some(Strip(SplitSecond(lines[k.value], Marker)))
  }

  /** The line loop with its `break`. */
  method FindPrediction(response: string) returns (predicted: Option<string>)
    ensures predicted == Prediction(response)
  {
    var lines := SplitOn(response, '\n');
    predicted := None;
    var i := 0;
    while i < |lines|
      invariant 0 <= i <= |lines|
      invariant forall j :: 0 <= j < i ==> !Contains(lines[j], Marker)
      decreases |lines| - i
    {
      if Contains(lines[i], Marker) {
        FirstMarkerIs(lines, i);
        predicted := Some(Strip(SplitSecond(lines[i], Marker)));
        return;
      }
      i := i + 1;
    }
  }

  /** A result counts as correct when its prediction equals the expected type. */
  predicate IsCorrect(r: TestResult) {
    Prediction(r.response) == Some(r.actualType)
  }

  function CountCorrect(results: seq<TestResult>): (n: nat)
    ensures n <= |results|
  {
    if results == [] then 0
    else CountCorrect(results[..|results| - 1]) + (if IsCorrect(results[|results| - 1]) then 1 else 0)
  }

  /** The summary: the number correct, and the accuracy in percent when
      there is at least one result. */
  method ScoreResults(results: seq<TestResult>) returns (correct: nat, accuracy: Option<real>)
    ensures correct == CountCorrect(results) && correct <= |results|
    ensures accuracy.Some? <==> |results| > 0
    ensures accuracy.Some? ==> accuracy.value == Percent(correct, |results|) &&
                               0.0 <= accuracy.value <= 100.0
  {
    correct := 0;
    accuracy := None;
    if |results| == 0 {
      return;
    }
    for i := 0 to |results|
      invariant correct == CountCorrect(results[..i])
    {
      assert results[..i + 1][..i] == results[..i];
      var predicted := FindPrediction(results[i].response);
      if predicted.Some? && predicted.value == results[i].actualType {
        correct := correct + 1;
      }
    }
    assert results[..|results|] == results;
    PercentBounds(correct, |results|);
    accuracy := Some(correct as real / |results| as real * 100.0);
  }

  /** A reply has a prediction exactly when one of its lines has a marker. */
  lemma PredictionSomeIff(response: string)
    ensures Prediction(response).Some? <==>
      exists j :: 0 <= j < |SplitOn(response, '\n')| && Contains(SplitOn(response, '\n')[j], Marker)
  {
    var lines := SplitOn(response, '\n');
    var k := FirstMarkerLine(lines);
    if k.Some? {
      assert Prediction(response).Some?;
      assert Contains(lines[k.value], Marker);
      assert exists j :: 0 <= j < |SplitOn(response, '\n')| && Contains(SplitOn(response, '\n')[j], Marker);
    } else {
      assert Prediction(response).None?;
    }
  }

  /** A reply without a marker line is never correct; a prediction carries
      no newline and no further marker. */
  lemma PredictionFacts(r: TestResult)
    ensures Prediction(r.response).None? ==> !IsCorrect(r)
    ensures Prediction(r.response).Some? ==>
      '\n' !in Prediction(r.response).value && !Contains(Prediction(r.response).value, Marker)
  {
    var lines := SplitOn(r.response, '\n');
    var k := FirstMarkerLine(lines);
    if k.Some? {
      var line := lines[k.value];
      SplitOnPieces(r.response, '\n');
      StripKeepsAbsent(SplitSecond(line, Marker), Marker);
      LabelOnLine(line);
    }
  }

  /** The label cut out of a line lies within the line. */
  lemma LabelOnLine(line: string)
    requires '\n' !in line && Contains(line, Marker)
    ensures '\n' !in Strip(SplitSecond(line, Marker))
  {
    var tail := SplitSecond(line, Marker);
    var j := Find(line, Marker).value + |Marker|;
    assert tail <= line[j..];
    assert '\n' !in tail by {
      assert forall i :: 0 <= i < |tail| ==> tail[i] == line[j + i];
    }
    var p := Strip(tail);
    assert forall i :: 0 <= i < |p| ==> p[i] == tail[SpaceRun(tail) + i];
  }

  /** The first marker line is the line with a marker after marker-free lines. */
  lemma {:induction false} FirstMarkerIs(lines: seq<string>, i: nat)
    requires i < |lines| && Contains(lines[i], Marker)
    requires forall j :: 0 <= j < i ==> !Contains(lines[j], Marker)
    ensures FirstMarkerLine(lines) == Some(i)
  {
    var k := FirstMarkerLine(lines);
    assert k.Some?;
    assert !(k.value < i);
    assert !(k.value > i);
  }

  /** The pieces of a split text without `m` have no `m`. */
  lemma {:induction false} SplitOnKeepsAbsent(s: string, sep: char, m: string)
    requires !Contains(s, m)
    ensures forall j :: 0 <= j < |SplitOn(s, sep)| ==> !Contains(SplitOn(s, sep)[j], m)
    decreases |s|
  {
    if sep in s {
      var i := IndexOf(s, sep);
      SliceNotContains(s, m, 0, i);
      assert s[..i] == s[0..i];
      SliceNotContains(s, m, i + 1, |s|);
      assert s[i + 1..] == s[i + 1..|s|];
      SplitOnKeepsAbsent(s[i + 1..], sep, m);
    }
  }

  /**
    * Round trip: when the text before a line has no marker, and the line is
    * some text, the marker and a label, the prediction is the stripped label,
    * whatever follows the line.
    */
  lemma PredictionRoundTrip(pre: string, x: string, name: string, post: string)
    requires !Contains(pre, Marker)
    requires '\n' !in x && '\n' !in name
    requires !Contains(x, Marker) && !Contains(name, Marker)
    ensures Prediction(pre + "\n" + (x + Marker + name) + "\n" + post) == Some(Strip(name))
  {
    var line := x + Marker + name;
    MarkerLine(x, name);
    var before := SplitOn(pre, '\n');
    LinesAround(pre, line, post);
    SplitOnKeepsAbsent(pre, '\n', Marker);
    FirstMarkerAfter(before, line, SplitOn(post, '\n'));
  }

  /** A line made of marker-free text, the marker and a label has no newline,
      has the marker, and the label is what follows the marker. */
  lemma MarkerLine(x: string, name: string)
    requires '\n' !in x && '\n' !in name
    requires !Contains(x, Marker) && !Contains(name, Marker)
    ensures var line := x + Marker + name;
      '\n' !in line && Contains(line, Marker) && SplitSecond(line, Marker) == name
  {
    TagsHeadUnique();
    var line := x + Marker + name;
    assert '\n' !in line by {
      assert forall i :: 0 <= i < |line| ==> line[i] != '\n' by {
        assert forall i :: 0 <= i < |Marker| ==> Marker[i] != '\n';
      }
    }
    FindPlaced(x, Marker, name);
    assert line[|x|..|x| + |Marker|] == Marker;
    OccursThenContains(line, Marker, |x|);
    assert line[|x| + |Marker|..] == name;
  }

  /** The lines of a reply with a newline-free line between two newlines. */
  lemma LinesAround(pre: string, line: string, post: string)
    requires '\n' !in line
    ensures SplitOn(pre + "\n" + line + "\n" + post, '\n') ==
      SplitOn(pre, '\n') + [line] + SplitOn(post, '\n')
  {
    assert pre + "\n" + line + "\n" + post == pre + ['\n'] + (line + ['\n'] + post);
    SplitOnAround(pre, '\n', line + ['\n'] + post);
    SplitOnAround(line, '\n', post);
    assert SplitOn(line, '\n') == [line];
  }

  /** The first marker line after marker-free lines is the next marker line. */
  lemma {:induction false} FirstMarkerAfter(before: seq<string>, line: string, after: seq<string>)
    requires forall j :: 0 <= j < |before| ==> !Contains(before[j], Marker)
    requires Contains(line, Marker)
    ensures FirstMarkerLine(before + [line] + after) == Some(|before|)
  {
    var lines := before + [line] + after;
    assert lines[|before|] == line;
    assert forall j :: 0 <= j < |before| ==> lines[j] == before[j];
    FirstMarkerIs(lines, |before|);
  }
}
