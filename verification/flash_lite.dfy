/**
  * `aggregate_results` of the Flash Lite report: the same aggregation over
  * six fixed result files, with the mean run time per run and the mean
  * response time per file added. Reading a file is a parameter.
  */
module FlashLite {
  import opened Wrappers
  import opened Stats
  import opened Consistency

  /** The six result files the report reads, newest first. */
  const ResultFiles: seq<string> := [
    "gemini_vision_classification_results_20250321_112633.json",
    "gemini_vision_classification_results_20250321_112551.json",
    "gemini_vision_classification_results_20250321_112510.json",
    "gemini_vision_classification_results_20250321_112426.json",
    "gemini_vision_classification_results_20250321_112344.json",
    "gemini_vision_classification_results_20250321_112301.json"
  ]

  /** The response times of a file's results, in order. */
  function ResponseTimesOf(rs: seq<Entry>): (ts: seq<real>)
    ensures |ts| == |rs| && forall i :: 0 <= i < |rs| ==> ts[i] == rs[i].responseTime
  {
    if rs == [] then [] else ResponseTimesOf(rs[..|rs| - 1]) + [rs[|rs| - 1].responseTime]
  }

  /** A file's consistency figures and its mean response time. */
  datatype FlashFileStats = FlashFileStats(stats: FileStats, averageResponseTime: real)

  function FlashStatsOf(rs: seq<Entry>): FlashFileStats {
    FlashFileStats(StatsOf(rs), Mean(ResponseTimesOf(rs)))
  }

  /** The consistency figures of every file, in the grouping's order. */
  function FlashConsistencyOf(g: Groups): (out: seq<(string, FlashFileStats)>)
    ensures |out| == |g| && forall i :: 0 <= i < |g| ==> out[i] == (g[i].0, FlashStatsOf(g[i].1))
  {
    if g == [] then [] else FlashConsistencyOf(g[..|g| - 1]) + [(g[|g| - 1].0, FlashStatsOf(g[|g| - 1].1))]
  }

  /** The body of the consistency loop for one file. */
  method FlashFileConsistency(rs: seq<Entry>) returns (s: FlashFileStats)
    ensures s == FlashStatsOf(rs)
  {
    var stats := FileConsistency(rs);
    var total := 0.0;
    for i := 0 to |rs|
      invariant total == Sum(ResponseTimesOf(rs[..i]))
    {
      assert rs[..i + 1][..i] == rs[..i];
      total := total + rs[i].responseTime;
    }
    assert rs[..|rs|] == rs;
    s := FlashFileStats(stats, if rs != [] then total / |rs| as real else 0.0);
  }

  /** The consistency loop over the files. */
  method FlashAnalyzeConsistency(g: Groups) returns (out: seq<(string, FlashFileStats)>)
    ensures out == FlashConsistencyOf(g)
  {
    out := [];
    for i := 0 to |g|
      invariant out == FlashConsistencyOf(g[..i])
    {
      assert g[..i + 1][..i] == g[..i];
      var s := FlashFileConsistency(g[i].1);
      out := out + [(g[i].0, s)];
    }
    assert g[..|g|] == g;
  }

  /** A file's mean response time is 0 without results and lies between the
      smallest and largest of its response times otherwise. */
  lemma FileResponseTimeBounds(rs: seq<Entry>, lo: real, hi: real)
    requires forall i :: 0 <= i < |rs| ==> lo <= rs[i].responseTime <= hi
    ensures rs == [] ==> FlashStatsOf(rs).averageResponseTime == 0.0
    ensures rs != [] ==> lo <= FlashStatsOf(rs).averageResponseTime <= hi
  {
    MeanBounds(ResponseTimesOf(rs), lo, hi);
  }

  /** The Flash Lite report. */
  datatype FlashAggregate = FlashAggregate(
    numRuns: nat, summary: RunsSummary, averageRunTime: real,
    byFile: seq<(string, FlashFileStats)>)

  function FlashAggregateOf(runs: seq<RunData>): FlashAggregate {
    FlashAggregate(|runs|, SummaryOf(runs), Mean(ColumnOf(runs, RunTimeColumn)),
                   FlashConsistencyOf(GroupAll(AllEntries(runs))))
  }

  /** `aggregate_results`: the six files are tried in order and those that
      cannot be read are skipped. */
  method AggregateResults(load: string -> Option<RunData>) returns (r: FlashAggregate)
    ensures r == FlashAggregateOf(Loaded(ResultFiles, load))
  {
    var runs := LoadRuns(ResultFiles, load);
    var accuracies := CollectColumn(runs, AccuracyColumn);
    var completions := CollectColumn(runs, CompletionColumn);
    var responseTimes := CollectColumn(runs, ResponseTimeColumn);
    var costs := CollectColumn(runs, CostColumn);
    var tokens := CollectColumn(runs, TokensColumn);
    var runTimes := CollectColumn(runs, RunTimeColumn);
    var groups := GroupByFile(runs);
    var byFile := FlashAnalyzeConsistency(groups);
    var summary := RunsSummary(Mean(accuracies), Mean(completions), Mean(responseTimes),
                               Sum(costs), Mean(costs), Sum(tokens), Mean(tokens));
    r := FlashAggregate(|runs|, summary, Mean(runTimes), byFile);
  }

  /** Exactly the six files are tried: the report counts at most six runs,
      six exactly when every file loads; the mean run time is 0 when none
      loads. */
  lemma FlashRunCount(load: string -> Option<RunData>)
    ensures var a := FlashAggregateOf(Loaded(ResultFiles, load));
      a.numRuns <= 6 &&
      (a.numRuns == 6 <==> forall i :: 0 <= i < 6 ==> load(ResultFiles[i]).Some?) &&
      (a.numRuns == 0 ==> a.averageRunTime == 0.0)
  {
    LoadedFacts(ResultFiles, load);
  }
}
