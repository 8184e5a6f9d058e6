# Document classifier: a verified model of its core logic

The repository classifies shipping and maritime documents (mostly PDFs) with
hosted language models. This project models the deterministic core of that
work in Dafny, with every network call, PDF library and file read replaced by
an input value or an oracle function:

- `vision_doc_classifier.py`:
  - the retry loop of the Azure vision client and its cost tracker;
  - page rendering;
  - reading the label out of a `<classification>` block;
  - `calculate_accuracy`;
  - the success, failure and retry counters of a test run.
- `run_tests.py` and `aggregate_flash_lite.py`: aggregation of several runs' result files, including per-file grouping, the prediction tally, the most common prediction, percentages and means.
- `run_simple_test.py`:
  - reading a document as text;
  - cleaning it up (NUL removal, whitespace collapsing, truncation);
  - scoring replies by their first `Final Classification:` line.
- `simple_classifier.py`: the first three PDF pages, the 4000-character prompt excerpt, matching the reply against the document type names, and one CSV row per PDF.

Layout, one module per file:

| module | models |
|---|---|
| `Wrappers` | `Option` |
| `PyStr` | the Python string operations the scripts rely on: `in`, `split(sep)[0]` and `[1]`, `strip()`, `split()` and `' '.join`, `split('\n')`, string ordering, `os.path.basename`, `.lower().endswith('.pdf')` |
| `Tally` | an insertion-ordered dictionary of counts, and Python's `max` over its items (the first maximal entry wins) |
| `Stats` | sums, means (0 on no values) and percentages over exact reals |
| `VisionClient` | `AzureOpenAIVisionWrapper.vision_chat_completion`, as a class over a `CostTracker` class |
| `PageRender` | `convert_pdf_pages_to_images` |
| `VisionExtract` | the tag and marker extraction in `classify_document_with_vision` |
| `VisionScoring` | `classify_document_with_vision`, `calculate_accuracy`, the loop of `test_documents_with_vision` |
| `Consistency` | what `run_tests.py` and `aggregate_flash_lite.py` share: loading, the per-run columns, grouping by file, the prediction tally and the per-file figures |
| `RunTests` | `aggregate_results` of `run_tests.py` |
| `FlashLite` | `aggregate_results` of `aggregate_flash_lite.py` |
| `SimpleTest` | `read_document` and `test_documents` of `run_simple_test.py` |
| `SimpleClassifier` | `simple_classifier.py` |

Where the code loops or updates state, the model is a method with a loop. Each such method is proved equal to a function on values, and the properties are lemmas about that function:

- `VisionChatCompletion` against `Call` and `Charge`;
- `CalculateAccuracy` against `Details`;
- `RunLoop` against `RunRows`;
- `GroupByFile` against `GroupAll`;
- `FindPrediction` against `Prediction`;
- and so on.

Oracles standing for I/O:

- **HTTP endpoint of the vision client:** `post: nat -> HttpOutcome`. It gives what the request sent with the retry counter at `k` produced: a reply (status, body text, usage, content, elapsed time), a timeout, or another request error.
- **Price list:** `price: (nat, nat) -> real`, from input and output tokens.
- **PDF documents:** values of a datatype. A document is either unopenable, or it is encrypted or not and has one entry per page. Each entry holds the rendered image or text, or `None` when that page fails.
- **Other reads:** the JSON result files, the existence of a path, the chat completion of the simple test, the chat call of the simple classifier and the folder listing are function or sequence parameters.
- **Document type names:** the names of the `DocumentType` enumeration are a parameter `names`, in declaration order.

Numbers that the scripts compute with Python floats (times, costs, ratios, percentages) are exact `real`s.

Where the project's own documentation and the code differ, the model follows the code:

- A usage record is appended to the tracker's history only when a call succeeds (vision_doc_classifier.py:153-162). Failed attempts add no record.
- The tag extractor has no fallback. When the tags or the marker are missing, the classification is `None` (vision_doc_classifier.py:349-355). There is no regular-expression search and no `UNKNOWN` default.
- Every failed attempt is retried after the same fixed pause (vision_doc_classifier.py:192, 211, 230). There is no exponential back-off and no special case for HTTP 429. The pause itself is not modelled.

## Model

| member | source | states |
|---|---|---|
| VisionClient.Call | vision_doc_classifier.py:117-230 | a returned dictionary has `retries` between the starting counter and `max_retries`; an error result has `retries == max_retries` and cost 0 |
| VisionClient.CostTracker.constructor | vision_doc_classifier.py:85 | a new tracker has zero totals and an empty usage history (assumed; see Left out) |
| VisionClient.VisionWrapper.constructor | vision_doc_classifier.py:49-85 | the wrapper keeps its deployment, its timeout and its tracker |
| VisionClient.VisionWrapper.VisionChatCompletion | vision_doc_classifier.py:96-230 | the loop returns what `Call` describes from counter 0; the tracker changes exactly as `Charge` says for that result; it sends `retries + 1` requests, or none when the loop is not entered |
| VisionClient.CallNoneIff | vision_doc_classifier.py:117-118 | the function falls off its end (returns None) exactly when the counter starts above `max_retries`, i.e. for a negative `max_retries` |
| VisionClient.AttemptsBounded | vision_doc_classifier.py:117-230 | for `max_retries >= 0` a dictionary is always returned and at most `max_retries + 1` requests are sent |
| VisionClient.FailedMeansAllFailed | vision_doc_classifier.py:176-230 | an error is returned only when every attempt from the start to `max_retries` failed; it carries the last attempt's error (status and text, timeout seconds, or exception message) and that attempt's elapsed time |
| VisionClient.CompletedAtFirstSuccess | vision_doc_classifier.py:137-175 | a completed result is the reply of the first attempt with status 200: its content, usage and time, priced by its token counts, and no earlier attempt succeeded |
| VisionClient.FirstSuccessCompletes | vision_doc_classifier.py:117-175 | conversely, a status 200 at attempt k within the bound, with no success before it, makes the call complete with `retries == k` |
| VisionClient.ChargeKeepsConsistent | vision_doc_classifier.py:147-162 | charging keeps the input, output and total token counts and the total cost equal to the sums over the usage history |
| VisionClient.ChargeOfCall | vision_doc_classifier.py:142-162 | the history grows by exactly one record iff the call completed, and otherwise the tracker is unchanged; the record names the deployment and an attempt index within the bound; each total grows by the record's figures |
| PageRender.PagesToRender | vision_doc_classifier.py:268 | the number of pages converted is `min(len(doc), max_pages)`, with no pages for a negative bound |
| PageRender.ConvertPdfPagesToImages | vision_doc_classifier.py:244-292 | the images are those of `Converted`: none for an unopenable or encrypted file, otherwise the rendered pages among the first ones, in page order |
| PageRender.RenderedAppend | vision_doc_classifier.py:272-287 | rendering a page list is rendering its parts in order and concatenating the images |
| PageRender.SkipFailedPage | vision_doc_classifier.py:285-287 | a page that fails to render contributes nothing and the loop carries on |
| PageRender.RenderedLength | vision_doc_classifier.py:272-287 | no more images than pages, and as many exactly when every page renders |
| PageRender.RenderedFromPages | vision_doc_classifier.py:272-287 | every image comes from a page that rendered |
| PageRender.ConvertedBound | vision_doc_classifier.py:259-292 | no images for an encrypted or unopenable file; at most `min(page_count, max_pages)` images, and exactly that many when every page renders |
| VisionExtract.TagBlock | vision_doc_classifier.py:351 | the block after the first opening tag, cut at the next closing tag, holds no closing tag |
| VisionExtract.ExtractClassification | vision_doc_classifier.py:349-355 | a label is found only when both tags occur and the marker occurs in the block; the label has no leading or trailing whitespace |
| VisionExtract.TagsHeadUnique | vision_doc_classifier.py:350-353 | the two tags and the marker do not start with a character that recurs inside them, so the first occurrence cannot overlap the text before it |
| VisionExtract.ExtractSomeIff | vision_doc_classifier.py:350-353 | a label is found iff both tags occur anywhere and the marker occurs in the block after the first opening tag |
| VisionExtract.ExtractedIsClean | vision_doc_classifier.py:351-354 | the label contains neither tag and no marker: it lies between the first and the second marker of one block |
| VisionExtract.TagBlockPlaced | vision_doc_classifier.py:351 | for a reply `pre + <classification> + body + </classification> + post` with no earlier opening tag, the block is exactly `body` |
| VisionExtract.ExtractRoundTrip | vision_doc_classifier.py:349-355 | round trip: a block holding `x + "Final Classification:" + name` yields `strip(name)`, whatever surrounds the block |
| VisionScoring.ClassifyDocumentWithVision | vision_doc_classifier.py:294-370 | the result is `ClassifiedDoc`; the tracker is charged for the call made, and no call is made when no page renders |
| VisionScoring.ClassifiedFromFirstSuccess | vision_doc_classifier.py:305-364 | a result exists only for a document with a rendered page whose call completed within two retries at its first successful attempt; it records that file, that reply and the label extracted from it |
| VisionScoring.SuccessIsClassified | vision_doc_classifier.py:305-364 | a document with a rendered page and a status 200 among its three attempts is classified |
| VisionScoring.ExpectedClassifications | vision_doc_classifier.py:386-389 | the loop builds the lookup `ExpectedMap` of the rows |
| VisionScoring.ExpectedMapKeys | vision_doc_classifier.py:387-389 | a path is in the lookup iff some row has it |
| VisionScoring.LastRowWins | vision_doc_classifier.py:387-389 | for a duplicated path the last row's classification wins |
| VisionScoring.CountCorrect | vision_doc_classifier.py:400-403 | the correct count never exceeds the number of details |
| VisionScoring.CalculateAccuracy | vision_doc_classifier.py:372-418 | details are `Details` of the results; `total == len(details)`, `correct <= total`, `accuracy == correct/total` within [0, 1], and 0 when nothing was scored |
| VisionScoring.DetailsAppend | vision_doc_classifier.py:391-415 | the details of a result list are those of its parts, in order |
| VisionScoring.DetailsOfOne | vision_doc_classifier.py:395-415 | a result with no or an empty classification, or with a path missing from the lookup, is skipped; otherwise one detail with the base name, the prediction, the expected label and `correct` iff they are equal |
| VisionScoring.Selected | vision_doc_classifier.py:479-481 | the rows tested are a prefix of the validation rows |
| VisionScoring.StepValid | vision_doc_classifier.py:509-555 | one row increments exactly one of the success and failure counters, leaving the other as it was, and keeps retried successes within the successes and the time and cost totals equal to the sums over the kept results |
| VisionScoring.RunRowsValid | vision_doc_classifier.py:500-555 | after n rows, successes plus failures equal n, the retry tally is at most the successes, and at most n results are kept |
| VisionScoring.CountResult | vision_doc_classifier.py:524-549 | the counter updates for a classified document are those of `Step` |
| VisionScoring.ProcessRow | vision_doc_classifier.py:500-555 | one row advances the counters as `Step` does for that row's file check and classification, and the tracker is charged for exactly the call that row makes (none for a skipped row) |
| VisionScoring.RunLoop | vision_doc_classifier.py:500-555 | the loop's counters are `RunRows` over the selected rows, and the tracker's new state is `ChargeRows` of its old state over those rows |
| VisionScoring.ChargeStep | vision_doc_classifier.py:518-549 | a row charges the tracker exactly when it keeps a result, appending one record with that result's cost and retry count; otherwise the tracker and the cost total are unchanged |
| VisionScoring.ChargeRowsFacts | vision_doc_classifier.py:500-555 | after the loop the tracker's history is its old history followed by one record per kept result, in order, each with that result's model, cost and retry count, and its cost has grown by the run's total cost |
| VisionScoring.ChargeRowsConsistent | vision_doc_classifier.py:145-162 | the loop keeps the tracker's totals equal to the sums over its usage history |
| VisionScoring.TestDocumentsWithVision | vision_doc_classifier.py:420-602 | with a fresh tracker, the summary is `Report` of the loop's counters and of the tracker after the loop; it satisfies `ReportValid`; `cost_history` has one record per raw result, carrying its cost and retries; `total_tokens` are the sums over `cost_history`; and `total_cost` equals the tracker's cost |
| VisionScoring.Summarize | vision_doc_classifier.py:557-602 | the summary is `Report` of the counters and of the tracker's state, within its bounds |
| VisionScoring.ReportOfValid | vision_doc_classifier.py:559-570 | successes plus failures equal the rows tested; completion and retry percentages in [0, 100], completion 0 with no rows; accuracy in [0, 1]; `correct_count <= total_count == len(detailed_results)` |
| Consistency.LoadRuns | run_tests.py:57-66 | the loaded runs are those of `Loaded`: the files that load, in order |
| Consistency.LoadedFacts | run_tests.py:59-66 | at most one run per file, one per file exactly when every file loads, and every run comes from one of the files |
| Consistency.CollectColumn | run_tests.py:76-82 | the collected list holds one figure per run, in run order |
| Consistency.SummaryBounds | run_tests.py:96-103 | all averages 0 with no runs; the average accuracy stays in [0, 1] and the average completion in [0, 100] when every run's figure does; the token total is not negative |
| Consistency.SummaryPerRun | run_tests.py:99-102 | the average cost and the average tokens per run, times the number of runs, give the totals |
| Consistency.GroupByFile | run_tests.py:76-94 | the grouping built by the nested loops is `GroupAll` of all runs' detailed results |
| Consistency.AddDetails | run_tests.py:85-94 | adding one run's details to a grouping gives the grouping of the longer list |
| Consistency.AppendLookup | run_tests.py:88-94 | appending an entry adds it to its own file's list only |
| Consistency.GroupAllFacts | run_tests.py:84-94 | file names are distinct; the list of a file is exactly its entries in run order; entries without a name are dropped; a name is a key iff some entry has it |
| Consistency.GroupIsFileEntries | run_tests.py:84-94 | each group is named, non-empty and holds exactly the entries naming its file |
| Consistency.GroupKeysOrder | run_tests.py:86-89 | file names keep their first-seen order: a new name goes last |
| Consistency.TallyPredictions | run_tests.py:109-113 | the loop builds `TallyOf` the file's results |
| Consistency.CorrectCount | run_tests.py:123 | the correct count never exceeds the number of results |
| Consistency.FileConsistency | run_tests.py:107-124 | the figures of one file are `StatsOf` its results |
| Consistency.ModeFacts | run_tests.py:108-116 | the tally counts only non-empty predictions; the mode's count is at least every label's count; `("", 0)` iff no prediction; otherwise a predicted label with its count, and no earlier tally entry reaches that count (ties go to the first seen) |
| Consistency.StatsBounds | run_tests.py:116-124 | both percentages in [0, 100]; the consistency is the mode's count over all the file's results; `expected` comes from the first result |
| Consistency.ConsistencyOf | run_tests.py:106-124 | one entry per file, in grouping order, holding that file's figures |
| Consistency.AnalyzeConsistency | run_tests.py:106-124 | the loop builds `ConsistencyOf` the grouping |
| RunTests.Insert | run_tests.py:51 | insertion adds exactly one name to the multiset |
| RunTests.SortDesc | run_tests.py:51 | sorting is a permutation |
| RunTests.InsertDescending | run_tests.py:51 | insertion keeps a list in descending order |
| RunTests.SortDescFacts | run_tests.py:51 | the sorted list is in descending order and as long as the input |
| RunTests.NewestFacts | run_tests.py:50-52 | `min(10, n)` names are kept, in descending order, drawn from the found names, and no name left out sorts above a name kept |
| RunTests.AggregateResults | run_tests.py:41-149 | no report iff no result file was found; otherwise the report of the runs loaded from the ten newest files, with at most 10 runs |
| FlashLite.FlashConsistencyOf | aggregate_flash_lite.py:78-100 | one entry per file, in grouping order, with its figures and mean response time |
| FlashLite.FlashFileConsistency | aggregate_flash_lite.py:79-100 | the loop's figures and summed response time give `FlashStatsOf` the file's results |
| FlashLite.FlashAnalyzeConsistency | aggregate_flash_lite.py:78-100 | the loop builds `FlashConsistencyOf` the grouping |
| FlashLite.FileResponseTimeBounds | aggregate_flash_lite.py:92 | a file's mean response time is 0 without results and otherwise lies between its smallest and largest response time |
| FlashLite.AggregateResults | aggregate_flash_lite.py:9-128 | the report is `FlashAggregateOf` the runs loaded from the six fixed files |
| FlashLite.FlashRunCount | aggregate_flash_lite.py:12-33 | at most six runs, six iff every file loads, and the mean run time is 0 when none loads |
| SimpleTest.ExtractPages | run_simple_test.py:27-36 | the text is `PagesText`: each readable page's text and a newline, in page order |
| SimpleTest.ReadDocumentText | run_simple_test.py:12-74 | the text read is `ReadDocument` of the path and its file |
| SimpleTest.ReadDocumentFacts | run_simple_test.py:12-74 | an encrypted or unreadable PDF gives nothing; a PDF's text is its pages' text; only the Latin-1 fallback can return blank text |
| SimpleTest.PagesTextAppend | run_simple_test.py:28-36 | page texts concatenate in page order |
| SimpleTest.PageTextOfOne | run_simple_test.py:29-36 | a page adds its text and a newline, and a failing page adds nothing |
| SimpleTest.RemoveNul | run_simple_test.py:129 | no NUL remains; other characters are kept; text without NUL is unchanged |
| SimpleTest.NormalizeFacts | run_simple_test.py:130 | normalised text is words separated by single spaces with no outer whitespace; normalising again changes nothing; the non-whitespace characters are kept in order; the result is empty iff the text is blank |
| SimpleTest.TruncateFacts | run_simple_test.py:133-135 | text up to 15000 characters is unchanged; longer text becomes its first 15000 characters followed by the truncation note |
| SimpleTest.CleanedFacts | run_simple_test.py:128-135 | the cleaned text has no NUL and is normalised when it needs no truncation; normalised text of at most 15000 characters without NUL is sent unchanged |
| SimpleTest.TestRow | run_simple_test.py:114-168 | a row's result is `RowResult` |
| SimpleTest.CollectResults | run_simple_test.py:113-168 | the loop collects `Collected` over all rows |
| SimpleTest.CollectedFacts | run_simple_test.py:113-159 | at most one result per row, each naming its row's file and expected type |
| SimpleTest.SkippedRow | run_simple_test.py:123-126 | a row whose document gives no text or blank text adds nothing |
| SimpleTest.KeptRow | run_simple_test.py:146-159 | a row with text, whose call returns, adds one result with the reply to the cleaned text |
| SimpleTest.FirstMarkerLine | run_simple_test.py:178-179 | the first line containing the marker, or none when no line has it |
| SimpleTest.FindPrediction | run_simple_test.py:178-187 | the loop with its `break` finds `Prediction` of the reply |
| SimpleTest.CountCorrect | run_simple_test.py:171-187 | the correct count never exceeds the number of results |
| SimpleTest.ScoreResults | run_simple_test.py:170-197 | `correct <= total`; an accuracy exists iff there are results, and then it is `correct/total*100`, in [0, 100] |
| SimpleTest.PredictionSomeIff | run_simple_test.py:178-180 | a prediction exists iff some line contains the marker |
| SimpleTest.PredictionFacts | run_simple_test.py:178-182 | a reply without a marker line is never correct; a prediction has no newline and no marker |
| SimpleTest.FirstMarkerIs | run_simple_test.py:178-187 | the first marker line is the one after which the loop breaks |
| SimpleTest.PredictionRoundTrip | run_simple_test.py:178-180 | round trip: a reply whose first marker line is `x + "Final Classification:" + name` predicts `strip(name)`, whatever the other lines hold |
| SimpleTest.FirstMarkerAfter | run_simple_test.py:178-187 | later lines do not matter once a line contains the marker |
| SimpleClassifier.PagesRead | simple_classifier.py:28 | `min(3, page_count)` pages are read |
| SimpleClassifier.ExtractTextFromPdf | simple_classifier.py:21-34 | the text is `PdfText` of the reader |
| SimpleClassifier.PdfTextFacts | simple_classifier.py:21-34 | the text is empty iff the file or one of the first pages fails, or there is no page; otherwise it is the first `min(3, n)` page texts, each followed by a newline |
| SimpleClassifier.JoinPagesLength | simple_classifier.py:29-30 | each page adds at least its newline, and the text ends with a newline |
| SimpleClassifier.JoinPagesAppend | simple_classifier.py:29-30 | page texts join in page order |
| SimpleClassifier.PromptExcerpt | simple_classifier.py:55 | the excerpt is the first `min(4000, len)` characters of the text |
| SimpleClassifier.FirstMatch | simple_classifier.py:78-81 | the index of the first type name occurring in the reply, or none when no name occurs |
| SimpleClassifier.ClassificationFacts | simple_classifier.py:60-94 | the label is a type name, `UNKNOWN` or `ERROR`; `ERROR` when the call fails; `UNKNOWN` when no name occurs in the stripped reply; otherwise the first name, in declaration order, that occurs |
| SimpleClassifier.FirstNameWins | simple_classifier.py:76-86 | a reply naming the i-th type, and none before it, is given that type |
| SimpleClassifier.PdfNames | simple_classifier.py:104 | the PDF names come from the listing and end in `.pdf` |
| SimpleClassifier.PdfNamesExact | simple_classifier.py:104 | a name is kept iff it is in the listing and ends in `.pdf` in any case |
| SimpleClassifier.ClassifyFile | simple_classifier.py:112-136 | one file's row is `RowFor` that file |
| SimpleClassifier.ClassifyFolder | simple_classifier.py:110-136 | exactly one row per PDF name, in listing order |
| SimpleClassifier.RowFacts | simple_classifier.py:111-136 | the row names the file and its path; the label is `ERROR_EXTRACTING_TEXT` iff no text was read, and otherwise a type name, `UNKNOWN` or `ERROR` |
| PyStr.Find | vision_doc_classifier.py:351 | the first occurrence of a substring, or none |
| PyStr.SplitHead | vision_doc_classifier.py:351 | `split(sep)[0]`: the prefix before the first separator, which holds no separator, or the whole text |
| PyStr.SplitSecond | vision_doc_classifier.py:351-354 | `split(sep)[1]`: text after the first separator, up to the next one, holding no separator |
| PyStr.FindPlaced | vision_doc_classifier.py:351 | a marker placed after text free of it is found right there |
| PyStr.Strip | vision_doc_classifier.py:354 | `strip()`: the piece of the text after its leading whitespace, empty or starting and ending with a non-whitespace character |
| PyStr.StripEmpty | vision_doc_classifier.py:354 | `strip()` is empty exactly when every character of the text is whitespace |
| PyStr.WordsAreWords | run_simple_test.py:130 | every piece of `split()` is non-empty and holds no whitespace |
| PyStr.WordsKeepText | run_simple_test.py:130 | `split()` keeps every non-whitespace character, in order |
| PyStr.WordsOfJoin | run_simple_test.py:130 | splitting words joined by single spaces gives the words back |
| PyStr.JoinIsNormalized | run_simple_test.py:130 | words joined by single spaces have single inner spaces and no outer whitespace |
| PyStr.NormalizedIffFixed | run_simple_test.py:130 | text is normalised exactly when `' '.join(text.split())` returns it unchanged |
| PyStr.SplitOn | run_simple_test.py:178 | `split('\n')` gives at least one part |
| PyStr.SplitOnPieces | run_simple_test.py:178 | no part of `split('\n')` holds a newline |
| PyStr.SplitOnAround | run_simple_test.py:178 | splitting at a newline splits the two sides separately |
| PyStr.LessEqTotal | run_tests.py:51 | the string order is total |
| PyStr.LessEqTransitive | run_tests.py:51 | the string order is transitive |
| PyStr.LessEqAntisymmetric | run_tests.py:51 | the string order is antisymmetric |
| PyStr.Basename | vision_doc_classifier.py:408 | the base name holds no `/` |
| Tally.CountAllFacts | run_tests.py:109-113 | the tally has distinct keys, counts every value once, maps each value to its number of occurrences and has a key iff the value occurs |
| Tally.MaxIndex | run_tests.py:116 | `max` over the tally's items: a maximal count, and no earlier entry has as high a count |
| Tally.BumpTotal | vision_doc_classifier.py:540 | incrementing one key raises the tally's total by one |
| Stats.MeanTimesCount | run_tests.py:99-102 | a mean times the number of values is their sum |
| Stats.MeanBounds | run_tests.py:97-103 | a mean is 0 on no values and otherwise lies between any lower and upper bound of the values |
| Stats.PercentBounds | vision_doc_classifier.py:564 | a share of a whole is in [0, 100] as a percentage and [0, 1] as a ratio, 0 when the whole is 0 |

## Left out

- HTTP and SDK calls, timing and sleeping. The endpoint, the chat completions, response times and the fixed 2-second retry pause are oracles or inputs, or are dropped.
- The request body (`messages`, `max_tokens`, the base64 images) is not modelled. The endpoint oracle answers by attempt index only.
- VisionClient.Call: a 200 reply is assumed to carry `usage` and `choices`. In the source, a missing `usage` raises `KeyError` at vision_doc_classifier.py:142. It escapes the retry loop and is caught at line 368, so the row counts as failed and the tracker is unchanged. A missing `choices` is caught at line 365 after the tracker was charged, so the row counts as failed and the tracker keeps a record with no result. Neither path is modelled.
- The cost tracker's `calculate_cost` and `_save_usage` (doc_classifier/azure_openai_cost_tracker.py) are not part of this model. Cost is the `price` oracle, and nothing is saved.
- `get_cost_summary` only returns the tracker's fields. It is read through `CostTracker.State()`.
- The budget limit is stored but never checked in the code shown, so it is not modelled.
- VisionScoring.TestDocumentsWithVision: `env.timeout` stands for the 120-second timeout the run's wrapper is built with. It only shapes the timeout error message, which the loop never reads.
- VisionClient.CostTracker.constructor: `AzureOpenAICostTracker` is not part of this model. Its `_save_usage` suggests it may persist usage and reload it when it starts. The model assumes that a new tracker starts with zero totals and an empty history.
- Environment loading:
  - `PAGES_NO` is the `pagesNo` parameter;
  - `MAX_OUTPUT_TOKENS`, `MODEL` and the deployment name are constructor inputs or dropped;
  - the credentials check is dropped.
- Interactive input:
  - the document count of `test_documents_with_vision` is the `limit` parameter;
  - `sample(n)` of `run_simple_test.py` is modelled by passing the sampled rows.
- Reading the validation CSV and the prompt template, and their error branches. The rows are a parameter.
- Writing JSON and CSV files, console output, emoji and rounding of printed numbers, and timestamps.
- `glob` and `os.listdir` are parameters. The model takes the found file names and the folder listing.
- `os.path.join` of the base folder in `run_simple_test.py` is left out. The document oracles are keyed by the row's path.
- `run_test`, which launches the classifier through `subprocess`, is left out.
- `main` of `run_tests.py` is left out: it only sequences runs and the aggregation.
- JSON values:
  - a result file is loaded into a typed record;
  - missing keys and the `.get(..., 0)` defaults are not modelled;
  - neither is the reading of a `total_tokens` field that is not a dictionary.
- SimpleClassifier.Classification: the `except` around enum matching cannot be reached by matching names against a string, so it is not modelled.
- The collection loops of `aggregate_results` are written as one loop per column. The lists they build are the same.
- The PDF and text libraries are datatypes of pages. So are base64 encoding and UTF-8 and Latin-1 decoding. The model keeps page count, order and failure, and does not model the content of the text or image.

