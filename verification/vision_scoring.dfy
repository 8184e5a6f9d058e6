/**
  * Classifying one document with the vision model, scoring a run against
  * the validation rows, and the run's success, failure and retry counters.
  */
module VisionScoring {
  import opened Wrappers
  import opened PyStr
  import opened Tally
  import opened Stats
  import opened VisionClient
  import opened PageRender
  import opened VisionExtract

  /** The retry bound `classify_document_with_vision` passes to the client. */
  const ClassifyMaxRetries := 2

  /** The dictionary `classify_document_with_vision` returns. */
  datatype ClassifyResult = ClassifyResult(
    file: string, response: string, classification: Option<string>,
    responseTime: real, cost: real, retries: nat)

  /** `if predicted:` on the result's classification: present and non-empty. */
  predicate HasPrediction(r: ClassifyResult) {
    r.classification.Some? && r.classification.value != ""
  }

  /** What `classify_document_with_vision` returns for a document whose pages
      rendered to `images`, given what the client call returned (`None` when
      no call was made). */
  function Classified(filePath: string, images: seq<Image>, call: Option<CallResult>): Option<ClassifyResult> {
    if images == [] || call.None? || call.value.Failed? then None
    else
      var c := call.value;
      Some(ClassifyResult(filePath, c.content, ExtractClassification(c.content),
                          c.responseTime, c.cost, c.retries))
  }

  /** The client call made for a document: none when no page rendered. */
  function CallFor(images: seq<Image>, post: nat -> HttpOutcome, price: (nat, nat) -> real,
                   timeout: int): Option<CallResult> {
    if images == [] then None else Call(post, price, timeout, ClassifyMaxRetries, 0)
  }

  /** The whole of `classify_document_with_vision` on a document. */
  function ClassifiedDoc(filePath: string, doc: PdfDoc, pagesNo: int, post: nat -> HttpOutcome,
                         price: (nat, nat) -> real, timeout: int): Option<ClassifyResult> {
    var images := Converted(doc, pagesNo);
    Classified(filePath, images, CallFor(images, post, price, timeout))
  }

  /** Render the pages, send them, and read the label out of the reply. */
  method ClassifyDocumentWithVision(filePath: string, doc: PdfDoc, pagesNo: int, api: VisionWrapper,
                                    post: nat -> HttpOutcome, price: (nat, nat) -> real)
    returns (res: Option<ClassifyResult>)
    modifies api.tracker
    ensures res == ClassifiedDoc(filePath, doc, pagesNo, post, price, api.timeout)
    ensures api.tracker.State() ==
      Charge(old(api.tracker.State()), api.deployment,
             CallFor(Converted(doc, pagesNo), post, price, api.timeout))
  {
    var images := ConvertPdfPagesToImages(doc, pagesNo);
    if images == [] {
      return None;
    }
    var response, _ := api.VisionChatCompletion(post, price, ClassifyMaxRetries);
    if response.None? || response.value.Failed? {
      return None;
    }
    var c := response.value;
    res := Some(ClassifyResult(filePath, c.content, ExtractClassification(c.content),
                               c.responseTime, c.cost, c.retries));
  }

  /** A classification is returned only for a document with at least one
      rendered page whose call completed, within two retries, at its first
      successful attempt; its label is read from that attempt's reply. */
  lemma ClassifiedFromFirstSuccess(filePath: string, doc: PdfDoc, pagesNo: int,
                                   post: nat -> HttpOutcome, price: (nat, nat) -> real, timeout: int)
    requires ClassifiedDoc(filePath, doc, pagesNo, post, price, timeout).Some?
    ensures var r := ClassifiedDoc(filePath, doc, pagesNo, post, price, timeout).value;
            Converted(doc, pagesNo) != [] && r.file == filePath &&
            r.retries <= ClassifyMaxRetries && Succeeded(post(r.retries)) &&
            (forall k :: 0 <= k < r.retries ==> !Succeeded(post(k))) &&
            r.response == post(r.retries).content &&
            r.classification == ExtractClassification(r.response)
  {
    CompletedAtFirstSuccess(post, price, timeout, ClassifyMaxRetries, 0);
  }

  /** A document with a rendered page and a successful attempt among the
      three allowed is classified. */
  lemma SuccessIsClassified(filePath: string, doc: PdfDoc, pagesNo: int,
                            post: nat -> HttpOutcome, price: (nat, nat) -> real, timeout: int, k: nat)
    requires Converted(doc, pagesNo) != []
    requires k <= ClassifyMaxRetries && Succeeded(post(k))
    ensures ClassifiedDoc(filePath, doc, pagesNo, post, price, timeout).Some?
  {
    var j: nat := 0;
    while !Succeeded(post(j))
      invariant j <= k
      invariant forall i :: 0 <= i < j ==> !Succeeded(post(i))
      decreases k - j
    {
      j := j + 1;
    }
    FirstSuccessCompletes(post, price, timeout, ClassifyMaxRetries, 0, j);
  }

  // ---------------------------------------------------------------------------
  // calculate_accuracy
  // ---------------------------------------------------------------------------

  /** A validation row: `file_path` and its `classification`. */
  type Row = (string, string)

  /** The lookup built row by row: a later row for the same path wins. */
  function ExpectedMap(rows: seq<Row>): map<string, string> {
    if rows == [] then map[]
    else ExpectedMap(rows[..|rows| - 1])[rows[|rows| - 1].0 := rows[|rows| - 1].1]
  }

  method ExpectedClassifications(rows: seq<Row>) returns (m: map<string, string>)
    ensures m == ExpectedMap(rows)
  {
    m := map[];
    for i := 0 to |rows|
      invariant m == ExpectedMap(rows[..i])
    {
      assert rows[..i + 1][..i] == rows[..i];
      m := m[rows[i].0 := rows[i].1];
    }
    assert rows[..|rows|] == rows;
  }

  /** The lookup holds exactly the paths of the rows. */
  lemma {:induction false} ExpectedMapKeys(rows: seq<Row>, f: string)
    ensures f in ExpectedMap(rows) <==> exists j :: 0 <= j < |rows| && rows[j].0 == f
  {
    if rows != [] {
      var init := rows[..|rows| - 1];
      ExpectedMapKeys(init, f);
      assert forall j :: 0 <= j < |init| ==> init[j] == rows[j];
    }
  }

  /** The expected classification of a path is that of its last row. */
  lemma {:induction false} LastRowWins(rows: seq<Row>, j: nat)
    requires j < |rows|
    requires forall k :: j < k < |rows| ==> rows[k].0 != rows[j].0
    ensures rows[j].0 in ExpectedMap(rows) && ExpectedMap(rows)[rows[j].0] == rows[j].1
  {
    if j < |rows| - 1 {
      var init := rows[..|rows| - 1];
      assert forall k :: j < k < |init| ==> init[k] == rows[k];
      LastRowWins(init, j);
    }
  }

  /** A row of `detailed_results`. */
  datatype Detail = Detail(
    file: string, predicted: string, expected: string, correct: bool,
    responseTime: real, cost: real, retries: nat)

  /** A result counts when it has a prediction and its path has a row. */
  predicate Scored(r: ClassifyResult, expected: map<string, string>) {
    HasPrediction(r) && r.file in expected
  }

  function DetailOf(r: ClassifyResult, expected: map<string, string>): Detail
    requires Scored(r, expected)
  {
    var p := r.classification.value;
    Detail(Basename(r.file), p, expected[r.file], p == expected[r.file],
           r.responseTime, r.cost, r.retries)
  }

  function Details(results: seq<ClassifyResult>, expected: map<string, string>): seq<Detail> {
    if results == [] then []
    else
      var r := results[|results| - 1];
      Details(results[..|results| - 1], expected) +
        (if Scored(r, expected) then [DetailOf(r, expected)] else [])
  }

  function CountCorrect(ds: seq<Detail>): (n: nat)
    ensures n <= |ds|
  {
    if ds == [] then 0
    else CountCorrect(ds[..|ds| - 1]) + (if ds[|ds| - 1].correct then 1 else 0)
  }

  /**
    * `calculate_accuracy`: the accuracy, the number of correct predictions,
    * the number scored and the detail rows.
    */
  method CalculateAccuracy(results: seq<ClassifyResult>, rows: seq<Row>)
    returns (accuracy: real, correct: nat, total: nat, details: seq<Detail>)
    ensures details == Details(results, ExpectedMap(rows))
    ensures total == |details| && correct == CountCorrect(details)
    ensures correct <= total
    ensures accuracy == Ratio(correct, total) && 0.0 <= accuracy <= 1.0
    ensures total == 0 ==> accuracy == 0.0
  {
    var expected := ExpectedClassifications(rows);
    correct, total, details := 0, 0, [];
    for i := 0 to |results|
      invariant details == Details(results[..i], expected)
      invariant total == |details| && correct == CountCorrect(details)
    {
      var r := results[i];
      assert results[..i + 1][..i] == results[..i];
      if !(r.classification.Some? && r.classification.value != "") || r.file !in expected {
        continue;
      }
      var predicted := r.classification.value;
      var isCorrect := predicted == expected[r.file];
      if isCorrect {
        correct := correct + 1;
      }
      total := total + 1;
      details := details + [Detail(Basename(r.file), predicted, expected[r.file], isCorrect,
                                   r.responseTime, r.cost, r.retries)];
    }
    assert results[..|results|] == results;
    accuracy := if total > 0 then correct as real / total as real else 0.0;
    PercentBounds(correct, total);
  }

  /** Scoring a concatenation scores each part in turn. */
  lemma {:induction false} DetailsAppend(a: seq<ClassifyResult>, b: seq<ClassifyResult>,
                                         expected: map<string, string>)
    ensures Details(a + b, expected) == Details(a, expected) + Details(b, expected)
    decreases |b|
  {
    if b == [] {
      assert a + b == a;
    } else {
      var init := b[..|b| - 1];
      var last := b[|b| - 1];
      var tail := if Scored(last, expected) then [DetailOf(last, expected)] else [];
      assert (a + b)[..|a + b| - 1] == a + init;
      assert (a + b)[|a + b| - 1] == last;
      assert Details(a + b, expected) == Details(a + init, expected) + tail;
      assert Details(b, expected) == Details(init, expected) + tail;
      DetailsAppend(a, init, expected);
    }
  }

  /** One result gives one detail row when it is scored and none otherwise;
      a detail row names the file by its base name and is correct exactly
      when the prediction equals the expected classification of the path. */
  lemma DetailsOfOne(r: ClassifyResult, expected: map<string, string>)
    ensures Scored(r, expected) ==> Details([r], expected) == [DetailOf(r, expected)]
    ensures !Scored(r, expected) ==> Details([r], expected) == []
    ensures Scored(r, expected) ==>
      var d := DetailOf(r, expected);
      d.file == Basename(r.file) && d.predicted != "" && d.expected == expected[r.file] &&
      (d.correct <==> d.predicted == d.expected)
  {
    assert [r][..0] == [];
  }

  // ---------------------------------------------------------------------------
  // test_documents_with_vision: the run loop and its counters
  // ---------------------------------------------------------------------------

  /** The counters and lists the run loop updates. */
  datatype Counters = Counters(
    successful: nat, failed: nat, retryCounts: Tally<nat>,
    results: seq<ClassifyResult>, totalApiTime: real, totalCost: real)

  /** `retry_success_counts = {1: 0, 2: 0}` and zeroed counters. */
  const Start := Counters(0, 0, [(1, 0), (2, 0)], [], 0.0, 0.0)

  /** One row of the loop: a missing or non-PDF file and a document that
      could not be classified count as failures; a classified document is
      kept, and counts as a success only when it carries a prediction. */
  function Step(c: Counters, fileExists: bool, isPdf: bool, res: Option<ClassifyResult>): Counters {
    if !fileExists || !isPdf || res.None? then c.(failed := c.failed + 1)
    else
      var r := res.value;
      var c1 :=
        if HasPrediction(r) then
          c.(successful := c.successful + 1,
             retryCounts := if r.retries > 0 then Bump(c.retryCounts, r.retries) else c.retryCounts)
        else c.(failed := c.failed + 1);
      c1.(results := c.results + [r], totalApiTime := c.totalApiTime + r.responseTime,
          totalCost := c.totalCost + r.cost)
  }

  /** What the run loop consults: which paths exist, the document at each
      path, the page bound, the endpoint's answers while row `i` is
      classified (`posts(i)`), the price list and the client's timeout. */
  datatype RunEnv = RunEnv(
    fileExists: string -> bool, docs: string -> PdfDoc, pagesNo: int,
    posts: nat -> nat -> HttpOutcome, price: (nat, nat) -> real, timeout: int)

  /** What classifying the document of row `i`, at `path`, returns. */
  function OutcomeAt(env: RunEnv, path: string, i: nat): Option<ClassifyResult> {
    ClassifiedDoc(path, env.docs(path), env.pagesNo, env.posts(i), env.price, env.timeout)
  }

  /** The loop over the first `n` rows. */
  function RunRows(rows: seq<Row>, n: nat, env: RunEnv): Counters
    requires n <= |rows|
  {
    if n == 0 then Start
    else
      var path := rows[n - 1].0;
      Step(RunRows(rows, n - 1, env), env.fileExists(path), HasPdfExtension(path),
           OutcomeAt(env, path, n - 1))
  }

  function ResponseTimes(rs: seq<ClassifyResult>): (ts: seq<real>)
    ensures |ts| == |rs| && forall i :: 0 <= i < |rs| ==> ts[i] == rs[i].responseTime
  {
    if rs == [] then [] else ResponseTimes(rs[..|rs| - 1]) + [rs[|rs| - 1].responseTime]
  }

  function Costs(rs: seq<ClassifyResult>): (cs: seq<real>)
    ensures |cs| == |rs| && forall i :: 0 <= i < |rs| ==> cs[i] == rs[i].cost
  {
    if rs == [] then [] else Costs(rs[..|rs| - 1]) + [rs[|rs| - 1].cost]
  }

  /** What the counters keep: every row counted once as a success or a
      failure, retried successes among the successes, and the totals equal
      to the sums over the kept results. */
  predicate CountersValid(c: Counters, processed: nat) {
    c.successful + c.failed == processed &&
    Total(c.retryCounts) <= c.successful &&
    |c.results| <= processed &&
    c.totalApiTime == Sum(ResponseTimes(c.results)) &&
    c.totalCost == Sum(Costs(c.results))
  }

  /** One row increments exactly one of the success and failure counters
      and keeps the counters valid. */
  lemma StepValid(c: Counters, n: nat, fileExists: bool, isPdf: bool, res: Option<ClassifyResult>)
    requires CountersValid(c, n)
    ensures var d := Step(c, fileExists, isPdf, res);
      (d.successful == c.successful + 1 && d.failed == c.failed) ||
      (d.successful == c.successful && d.failed == c.failed + 1)
    ensures CountersValid(Step(c, fileExists, isPdf, res), n + 1)
  {
    if fileExists && isPdf && res.Some? {
      var r := res.value;
      if HasPrediction(r) && r.retries > 0 {
        BumpTotal(c.retryCounts, r.retries);
      }
      var rs := c.results + [r];
      assert rs[..|rs| - 1] == c.results;
      assert ResponseTimes(rs) == ResponseTimes(c.results) + [r.responseTime];
      assert Costs(rs) == Costs(c.results) + [r.cost];
      SumAppend(ResponseTimes(c.results), r.responseTime);
      SumAppend(Costs(c.results), r.cost);
    }
  }

  /** Each row increments exactly one of the two counters, and the retry
      tally never exceeds the successes. */
  lemma {:induction false} RunRowsValid(rows: seq<Row>, n: nat, env: RunEnv)
    requires n <= |rows|
    ensures CountersValid(RunRows(rows, n, env), n)
  {
    if n == 0 {
      assert Total(Start.retryCounts) == 0;
    } else {
      RunRowsValid(rows, n - 1, env);
      var path := rows[n - 1].0;
      StepValid(RunRows(rows, n - 1, env), n - 1,
                env.fileExists(path), HasPdfExtension(path), OutcomeAt(env, path, n - 1));
    }
  }

  /** The summary the run writes, with its detailed and raw results and the
      tracker's token totals (input, output, total) and usage history. */
  datatype RunReport = RunReport(
    model: string, accuracy: real, correctCount: nat, totalCount: nat, details: seq<Detail>,
    completionPercentage: real, successfulCalls: nat, failedCalls: nat,
    retrySuccessCounts: Tally<nat>, retryPercentage: real,
    averageResponseTime: real, totalApiTime: real, totalCost: real,
    totalTokens: (nat, nat, nat), rawResults: seq<ClassifyResult>, costHistory: seq<UsageRecord>)

  // ---------------------------------------------------------------------------
  // The cost tracker across the run
  // ---------------------------------------------------------------------------

  /** The client call row `i`, at `path`, makes: none for a skipped row. */
  function RowCall(env: RunEnv, path: string, i: nat): Option<CallResult> {
    if env.fileExists(path) && HasPdfExtension(path) then
      CallFor(Converted(env.docs(path), env.pagesNo), env.posts(i), env.price, env.timeout)
    else None
  }

  /** The tracker after the loop over the first `n` rows, starting from `t`. */
  function ChargeRows(t: Totals, model: string, rows: seq<Row>, n: nat, env: RunEnv): Totals
    requires n <= |rows|
  {
    if n == 0 then t
    else Charge(ChargeRows(t, model, rows, n - 1, env), model, RowCall(env, rows[n - 1].0, n - 1))
  }

  /** The usage record the tracker keeps for a kept result. */
  predicate RecordFor(rec: UsageRecord, r: ClassifyResult, model: string) {
    rec.model == model && rec.cost == r.cost && rec.retries == r.retries
  }

  /** One row charges the tracker exactly when it keeps a result: the record
      appended carries that result's cost and retry count. */
  lemma ChargeStep(t: Totals, model: string, c: Counters, env: RunEnv, path: string, i: nat)
    ensures var t' := Charge(t, model, RowCall(env, path, i));
      var c' := Step(c, env.fileExists(path), HasPdfExtension(path), OutcomeAt(env, path, i));
      (|c'.results| == |c.results| ==> t' == t && c'.totalCost == c.totalCost) &&
      (|c'.results| == |c.results| + 1 ==>
        t'.history == t.history + [t'.history[|t.history|]] &&
        RecordFor(t'.history[|t.history|], c'.results[|c.results|], model) &&
        t'.cost == t.cost + c'.results[|c.results|].cost &&
        c'.totalCost == c.totalCost + c'.results[|c.results|].cost) &&
      c'.results[..|c.results|] == c.results && |c.results| <= |c'.results| <= |c.results| + 1
  {
  }

  /** After the loop the tracker holds one usage record per kept result, in
      order, after the records it started with, and its cost has grown by the
      run's total cost. */
  lemma {:induction false} ChargeRowsFacts(t: Totals, model: string, rows: seq<Row>, n: nat, env: RunEnv)
    requires n <= |rows|
    ensures var t' := ChargeRows(t, model, rows, n, env);
      var c := RunRows(rows, n, env);
      |t'.history| == |t.history| + |c.results| && t'.history[..|t.history|] == t.history &&
      (forall k :: 0 <= k < |c.results| ==> RecordFor(t'.history[|t.history| + k], c.results[k], model)) &&
      t'.cost == t.cost + c.totalCost
  {
    if n > 0 {
      ChargeRowsFacts(t, model, rows, n - 1, env);
      var path := rows[n - 1].0;
      var t1 := ChargeRows(t, model, rows, n - 1, env);
      var c1 := RunRows(rows, n - 1, env);
      ChargeStep(t1, model, c1, env, path, n - 1);
      var t' := ChargeRows(t, model, rows, n, env);
      var c := RunRows(rows, n, env);
      assert t'.history[..|t1.history|] == t1.history;
      assert t'.history[..|t.history|] == t1.history[..|t.history|];
      forall k | 0 <= k < |c.results|
        ensures RecordFor(t'.history[|t.history| + k], c.results[k], model)
      {
        if k < |c1.results| {
          assert c.results[k] == c1.results[k];
          assert t'.history[|t.history| + k] == t1.history[|t.history| + k];
        }
      }
    }
  }

  /** The loop keeps the tracker's totals equal to the sums over its history. */
  lemma {:induction false} ChargeRowsConsistent(t: Totals, model: string, rows: seq<Row>, n: nat, env: RunEnv)
    requires n <= |rows| && Consistent(t)
    ensures Consistent(ChargeRows(t, model, rows, n, env))
  {
    if n > 0 {
      ChargeRowsConsistent(t, model, rows, n - 1, env);
      ChargeKeepsConsistent(ChargeRows(t, model, rows, n - 1, env), model, RowCall(env, rows[n - 1].0, n - 1));
    }
  }

  /** `validation_data.head(max_documents)` when a positive limit is given. */
  function Selected(rows: seq<Row>, limit: Option<nat>): (s: seq<Row>)
    ensures |s| <= |rows| && s == rows[..|s|]
  {
    if limit.Some? && 0 < limit.value < |rows| then rows[..limit.value] else rows
  }

  /** The counter updates for a document that was classified. */
  method CountResult(c: Counters, r: ClassifyResult) returns (next: Counters)
    ensures next == Step(c, true, true, Some(r))
  {
    next := c;
    if r.classification.Some? && r.classification.value != "" {
      if r.retries > 0 {
        next := next.(retryCounts := Bump(next.retryCounts, r.retries));
      }
      next := next.(successful := next.successful + 1);
    } else {
      next := next.(failed := next.failed + 1);
    }
    next := next.(results := c.results + [r], totalApiTime := c.totalApiTime + r.responseTime,
                  totalCost := c.totalCost + r.cost);
  }

  /** One row of the loop: skip a missing or non-PDF file, otherwise
      classify the document and count the result. */
  method ProcessRow(api: VisionWrapper, c: Counters, path: string, i: nat, env: RunEnv)
    returns (next: Counters)
    requires env.timeout == api.timeout
    modifies api.tracker
    ensures next == Step(c, env.fileExists(path), HasPdfExtension(path), OutcomeAt(env, path, i))
    ensures api.tracker.State() == Charge(old(api.tracker.State()), api.deployment, RowCall(env, path, i))
  {
    if !env.fileExists(path) || !HasPdfExtension(path) {
      return c.(failed := c.failed + 1);
    }
    var res := ClassifyDocumentWithVision(path, env.docs(path), env.pagesNo, api, env.posts(i), env.price);
    if res.None? {
      return c.(failed := c.failed + 1);
    }
    next := CountResult(c, res.value);
  }

  /** The loop over the selected rows. */
  method RunLoop(api: VisionWrapper, sel: seq<Row>, env: RunEnv) returns (c: Counters)
    requires env.timeout == api.timeout
    modifies api.tracker
    ensures c == RunRows(sel, |sel|, env)
    ensures api.tracker.State() == ChargeRows(old(api.tracker.State()), api.deployment, sel, |sel|, env)
  {
    c := Start;
    for i := 0 to |sel|
      invariant c == RunRows(sel, i, env)
      invariant api.tracker.State() == ChargeRows(old(api.tracker.State()), api.deployment, sel, i, env)
    {
      c := ProcessRow(api, c, sel[i].0, i, env);
    }
  }

  /** The request timeout, in seconds, of the wrapper the run builds. */
  const RunTimeout := 120

  /** A tracker with nothing recorded. */
  const NoUsage := Totals(0, 0, 0, 0.0, [])

  /**
    * `test_documents_with_vision`: build the wrapper with a fresh tracker,
    * run the loop over the selected rows, then compute the summary figures
    * and read the tracker's totals. `env` describes the endpoint as seen
    * with the wrapper's timeout.
    */
  method TestDocumentsWithVision(deployment: string, rows: seq<Row>, limit: Option<nat>, env: RunEnv)
    returns (report: RunReport)
    requires env.timeout == RunTimeout
    ensures var sel := Selected(rows, limit);
      report == Report(RunRows(sel, |sel|, env), sel, deployment,
                       ChargeRows(NoUsage, deployment, sel, |sel|, env))
    ensures ReportValid(report, |Selected(rows, limit)|)
    ensures TrackerMatches(report)
  {
    var tracker := new CostTracker();
    var api := new VisionWrapper(deployment, RunTimeout, tracker);
    var sel := Selected(rows, limit);
    var c := RunLoop(api, sel, env);
    RunRowsValid(sel, |sel|, env);
    ChargeRowsFacts(NoUsage, deployment, sel, |sel|, env);
    ChargeRowsConsistent(NoUsage, deployment, sel, |sel|, env);
    report := Summarize(c, sel, api);
  }

  /** What the saved report says about the tracker: one usage record per raw
      result, each for the run's model with that result's cost and retry
      count; the token totals are the sums over the records; and the summary's
      total cost is the tracker's. */
  predicate TrackerMatches(report: RunReport) {
    var h := report.costHistory;
    |h| == |report.rawResults| &&
    (forall k :: 0 <= k < |h| ==> RecordFor(h[k], report.rawResults[k], report.model)) &&
    report.totalTokens == (SumInput(h), SumOutput(h), SumTotal(h)) &&
    report.totalCost == SumCost(h)
  }

  /** The figures computed after the loop: accuracy over the kept results,
      completion and retry percentages and the mean response time. */
  method Summarize(c: Counters, sel: seq<Row>, api: VisionWrapper) returns (report: RunReport)
    requires CountersValid(c, |sel|)
    ensures report == Report(c, sel, api.deployment, api.tracker.State())
    ensures ReportValid(report, |sel|)
  {
    var accuracy, correct, total, details := CalculateAccuracy(c.results, sel);
    var attempts := c.successful + c.failed;
    var completion := if attempts > 0 then c.successful as real / attempts as real * 100.0 else 0.0;
    var retryPct := if c.successful > 0 then Total(c.retryCounts) as real / c.successful as real * 100.0 else 0.0;
    var avg := if |c.results| > 0 then c.totalApiTime / |c.results| as real else 0.0;
    assert completion == Percent(c.successful, attempts);
    assert retryPct == Percent(Total(c.retryCounts), c.successful);
    assert avg == Mean(ResponseTimes(c.results));
    var summary := api.tracker.State();
    report := RunReport(api.deployment, accuracy, correct, total, details, completion,
                        c.successful, c.failed, c.retryCounts, retryPct, avg, c.totalApiTime,
                        c.totalCost, (summary.input, summary.output, summary.total), c.results,
                        summary.history);
    ReportOfValid(c, sel, api.deployment, summary);
  }

  /** The summary of a finished loop over `sel`, with the tracker's state `t`. */
  function Report(c: Counters, sel: seq<Row>, model: string, t: Totals): RunReport {
    var details := Details(c.results, ExpectedMap(sel));
    var correct := CountCorrect(details);
    RunReport(model, Ratio(correct, |details|), correct, |details|, details,
              Percent(c.successful, c.successful + c.failed), c.successful, c.failed,
              c.retryCounts, Percent(Total(c.retryCounts), c.successful),
              Mean(ResponseTimes(c.results)), c.totalApiTime, c.totalCost,
              (t.input, t.output, t.total), c.results, t.history)
  }

  /** The bounds a run summary keeps over `n` rows. */
  predicate ReportValid(report: RunReport, n: nat) {
    report.successfulCalls + report.failedCalls == n &&
    Total(report.retrySuccessCounts) <= report.successfulCalls &&
    0.0 <= report.completionPercentage <= 100.0 &&
    (n == 0 ==> report.completionPercentage == 0.0) &&
    0.0 <= report.retryPercentage <= 100.0 &&
    0.0 <= report.accuracy <= 1.0 &&
    report.correctCount <= report.totalCount == |report.details| &&
    (report.totalCount == 0 ==> report.accuracy == 0.0)
  }

  /** Every run summary is within its bounds: completion and retry
      percentages between 0 and 100, accuracy between 0 and 1. */
  lemma ReportOfValid(c: Counters, sel: seq<Row>, model: string, t: Totals)
    requires CountersValid(c, |sel|)
    ensures ReportValid(Report(c, sel, model, t), |sel|)
  {
    var details := Details(c.results, ExpectedMap(sel));
    PercentBounds(CountCorrect(details), |details|);
    PercentBounds(c.successful, c.successful + c.failed);
    PercentBounds(Total(c.retryCounts), c.successful);
  }


}
