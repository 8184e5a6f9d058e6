/**
  * The aggregation the two multi-run report scripts share: loading the saved
  * runs, the per-run summary columns and their means, grouping the detail
  * rows of all runs by file name, and, for each file, the most common
  * prediction with the consistency and correctness percentages.
  *
  * A run file is given as a value. A key that is missing reads as the
  * default the scripts pass to `.get`: "", `False` or 0.
  */
module Consistency {
  import opened Wrappers
  import opened Tally
  import opened Stats

  /** One entry of a run's `detailed_results`; "" stands for a missing or
      empty `filename` or `predicted`. */
  datatype Entry = Entry(
    filename: string, predicted: string, expected: string, correct: bool,
    responseTime: real, cost: real)

  /** The `summary` figures of a saved run, and its `detailed_results`. */
  datatype RunData = RunData(
    accuracy: real, completionPercentage: real, averageResponseTime: real,
    totalCost: real, totalTokens: nat, totalRunTime: real, details: seq<Entry>)

  // ---------------------------------------------------------------------------
  // Loading the runs
  // ---------------------------------------------------------------------------

  /** The runs whose file could be read and parsed, in file order;
      `load(f)` is `None` when opening or parsing `f` raises. */
  function Loaded(files: seq<string>, load: string -> Option<RunData>): seq<RunData> {
    if files == [] then []
    else
      var r := load(files[|files| - 1]);
      Loaded(files[..|files| - 1], load) + (if r.Some? then [r.value] else [])
  }

  /** The loading loop: a file that cannot be read is skipped. */
  method LoadRuns(files: seq<string>, load: string -> Option<RunData>) returns (runs: seq<RunData>)
    ensures runs == Loaded(files, load)
  {
    runs := [];
    for i := 0 to |files|
      invariant runs == Loaded(files[..i], load)
    {
      assert files[..i + 1][..i] == files[..i];
      var data := load(files[i]);
      if data.Some? {
        runs := runs + [data.value];
      }
    }
    assert files[..|files|] == files;
  }

  /** At most one run per file, one exactly when every file loads, and
      every run is what its file holds. */
  lemma {:induction false} LoadedFacts(files: seq<string>, load: string -> Option<RunData>)
    ensures |Loaded(files, load)| <= |files|
    ensures |Loaded(files, load)| == |files| <==> forall i :: 0 <= i < |files| ==> load(files[i]).Some?
    ensures forall r :: r in Loaded(files, load) ==> exists f :: f in files && load(f) == Some(r)
  {
    if files != [] {
      var init := files[..|files| - 1];
      LoadedFacts(init, load);
      assert forall i :: 0 <= i < |init| ==> init[i] == files[i];
      assert forall f :: f in init ==> f in files;
    }
  }

  // ---------------------------------------------------------------------------
  // The per-run columns and their means
  // ---------------------------------------------------------------------------

  /** The summary figures collected run by run. */
  datatype Column = AccuracyColumn | CompletionColumn | ResponseTimeColumn
                  | CostColumn | TokensColumn | RunTimeColumn

  function Pick(r: RunData, k: Column): real {
    match k
    case AccuracyColumn => r.accuracy
    case CompletionColumn => r.completionPercentage
    case ResponseTimeColumn => r.averageResponseTime
    case CostColumn => r.totalCost
    case TokensColumn => r.totalTokens as real
    case RunTimeColumn => r.totalRunTime
  }

  /** One summary figure of every run, in run order. */
  function ColumnOf(runs: seq<RunData>, k: Column): (xs: seq<real>)
    ensures |xs| == |runs| && forall i :: 0 <= i < |runs| ==> xs[i] == Pick(runs[i], k)
  {
    if runs == [] then [] else ColumnOf(runs[..|runs| - 1], k) + [Pick(runs[|runs| - 1], k)]
  }

  /** The list a script builds by appending one figure per run. */
  method CollectColumn(runs: seq<RunData>, k: Column) returns (xs: seq<real>)
    ensures xs == ColumnOf(runs, k)
  {
    xs := [];
    for i := 0 to |runs|
      invariant xs == ColumnOf(runs[..i], k)
    {
      assert runs[..i + 1][..i] == runs[..i];
      xs := xs + [Pick(runs[i], k)];
    }
    assert runs[..|runs|] == runs;
  }

  /** The run-level figures both scripts report. */
  datatype RunsSummary = RunsSummary(
    averageAccuracy: real, averageCompletion: real, averageResponseTime: real,
    totalCost: real, averageCost: real, totalTokens: real, averageTokens: real)

  function SummaryOf(runs: seq<RunData>): RunsSummary {
    var costs := ColumnOf(runs, CostColumn);
    var tokens := ColumnOf(runs, TokensColumn);
    RunsSummary(Mean(ColumnOf(runs, AccuracyColumn)), Mean(ColumnOf(runs, CompletionColumn)),
                Mean(ColumnOf(runs, ResponseTimeColumn)), Sum(costs), Mean(costs),
                Sum(tokens), Mean(tokens))
  }

  /** The averages are 0 without runs; an average of accuracies in [0, 1]
      or of percentages in [0, 100] stays there; the token total is not
      negative. */
  lemma SummaryBounds(runs: seq<RunData>)
    ensures runs == [] ==> SummaryOf(runs) == RunsSummary(0.0, 0.0, 0.0, 0.0, 0.0, 0.0, 0.0)
    ensures (forall i :: 0 <= i < |runs| ==> 0.0 <= runs[i].accuracy <= 1.0) ==>
      0.0 <= SummaryOf(runs).averageAccuracy <= 1.0
    ensures (forall i :: 0 <= i < |runs| ==> 0.0 <= runs[i].completionPercentage <= 100.0) ==>
      0.0 <= SummaryOf(runs).averageCompletion <= 100.0
    ensures 0.0 <= SummaryOf(runs).totalTokens
  {
    if forall i :: 0 <= i < |runs| ==> 0.0 <= runs[i].accuracy <= 1.0 {
      ColumnMeanBounds(runs, AccuracyColumn, 0.0, 1.0);
    }
    if forall i :: 0 <= i < |runs| ==> 0.0 <= runs[i].completionPercentage <= 100.0 {
      ColumnMeanBounds(runs, CompletionColumn, 0.0, 100.0);
    }
    SumNonNegative(ColumnOf(runs, TokensColumn));
  }

  /** The average cost and tokens per run, times the number of runs, give
      the totals over all runs. */
  lemma SummaryPerRun(runs: seq<RunData>)
    ensures SummaryOf(runs).averageCost * |runs| as real == SummaryOf(runs).totalCost
    ensures SummaryOf(runs).averageTokens * |runs| as real == SummaryOf(runs).totalTokens
  {
    ColumnMeanTimesCount(runs, CostColumn);
    ColumnMeanTimesCount(runs, TokensColumn);
  }

  /** The mean of one column times the number of runs is the column's sum. */
  lemma ColumnMeanTimesCount(runs: seq<RunData>, k: Column)
    ensures Mean(ColumnOf(runs, k)) * |runs| as real == Sum(ColumnOf(runs, k))
  {
    var xs := ColumnOf(runs, k);
    var n := |runs|;
    assert n == |xs|;
    MeanTimesCount(xs, n);
  }

  /** The mean of one column lies within the bounds of its figures. */
  lemma ColumnMeanBounds(runs: seq<RunData>, k: Column, lo: real, hi: real)
    requires forall i :: 0 <= i < |runs| ==> lo <= Pick(runs[i], k) <= hi
    ensures runs != [] ==> lo <= Mean(ColumnOf(runs, k)) <= hi
  {
    MeanBounds(ColumnOf(runs, k), lo, hi);
  }

  /** A sum of non-negative values is non-negative. */
  lemma {:induction false} SumNonNegative(xs: seq<real>)
    requires forall i :: 0 <= i < |xs| ==> 0.0 <= xs[i]
    ensures 0.0 <= Sum(xs)
  {
    if xs != [] {
      SumNonNegative(xs[..|xs| - 1]);
    }
  }

  // ---------------------------------------------------------------------------
  // Grouping the detail rows by file name
  // ---------------------------------------------------------------------------

  /** `detailed_results_by_file`: file names in insertion order, each with
      its entries in the order they were appended. */
  type Groups = seq<(string, seq<Entry>)>

  /** The detail rows of all runs, run after run. */
  function AllEntries(runs: seq<RunData>): seq<Entry> {
    if runs == [] then [] else AllEntries(runs[..|runs| - 1]) + runs[|runs| - 1].details
  }

  /** The entries naming file `f`, in order. */
  function OfFile(es: seq<Entry>, f: string): (r: seq<Entry>)
    ensures |r| <= |es|
  {
    if es == [] then []
    else OfFile(es[..|es| - 1], f) + (if es[|es| - 1].filename == f then [es[|es| - 1]] else [])
  }

  /** `detailed_results_by_file.get(f, [])`. */
  function Lookup(g: Groups, f: string): seq<Entry> {
    if g == [] then [] else if g[0].0 == f then g[0].1 else Lookup(g[1..], f)
  }

  /** Appending `e` to the list of its file, opening one at the end when the
      file is new. */
  function Append(g: Groups, e: Entry): Groups {
    if g == [] then [(e.filename, [e])]
    else if g[0].0 == e.filename then [(g[0].0, g[0].1 + [e])] + g[1..]
    else [g[0]] + Append(g[1..], e)
  }

  /** An entry without a file name is dropped. */
  function AddEntry(g: Groups, e: Entry): Groups {
    if e.filename == "" then g else Append(g, e)
  }

  /** The grouping of a list of entries, added one after another. */
  function GroupAll(es: seq<Entry>): Groups {
    if es == [] then [] else AddEntry(GroupAll(es[..|es| - 1]), es[|es| - 1])
  }

  /** The nested loop over the runs and their detail rows. */
  method GroupByFile(runs: seq<RunData>) returns (g: Groups)
    ensures g == GroupAll(AllEntries(runs))
  {
    g := [];
    for i := 0 to |runs|
      invariant g == GroupAll(AllEntries(runs[..i]))
    {
      assert runs[..i + 1][..i] == runs[..i];
      g := AddDetails(g, AllEntries(runs[..i]), runs[i].details);
    }
    assert runs[..|runs|] == runs;
  }

  /** The inner loop over one run's detail rows. */
  method AddDetails(g0: Groups, done: seq<Entry>, details: seq<Entry>) returns (g: Groups)
    requires g0 == GroupAll(done)
    ensures g == GroupAll(done + details)
  {
    g := g0;
    assert done + details[..0] == done;
    for j := 0 to |details|
      invariant g == GroupAll(done + details[..j])
    {
      assert (done + details[..j + 1])[..|done| + j] == done + details[..j];
      g := AddEntry(g, details[j]);
    }
    assert details[..|details|] == details;
  }

  lemma {:induction false} AppendLookup(g: Groups, e: Entry, f: string)
    ensures Lookup(Append(g, e), f) == Lookup(g, f) + (if f == e.filename then [e] else [])
  {
    if g != [] && g[0].0 != e.filename {
      AppendLookup(g[1..], e, f);
      assert Append(g, e)[1..] == Append(g[1..], e);
    }
  }

  lemma {:induction false} AppendKeys(g: Groups, e: Entry)
    ensures Keys(Append(g, e)) == if e.filename in Keys(g) then Keys(g) else Keys(g) + [e.filename]
  {
    if g != [] && g[0].0 != e.filename {
      AppendKeys(g[1..], e);
      assert Append(g, e)[1..] == Append(g[1..], e);
      assert Keys(g)[1..] == Keys(g[1..]);
      assert e.filename in Keys(g) <==> e.filename in Keys(g[1..]);
      assert Keys(Append(g, e)) == [g[0].0] + Keys(Append(g[1..], e));
      if e.filename !in Keys(g) {
        assert Keys(g) + [e.filename] == [g[0].0] + (Keys(g[1..]) + [e.filename]);
      }
    }
  }

  lemma AppendDistinct(g: Groups, e: Entry)
    requires DistinctKeys(g)
    ensures DistinctKeys(Append(g, e))
  {
    var b := Append(g, e);
    AppendKeys(g, e);
    var ks := Keys(g);
    assert |Keys(b)| == |b|;
    assert forall i :: 0 <= i < |g| ==> b[i].0 == ks[i] == g[i].0 by {
      assert forall i :: 0 <= i < |g| ==> Keys(b)[i] == b[i].0;
    }
    if e.filename !in ks {
      assert b[|g|].0 == e.filename by {
        assert Keys(b)[|g|] == e.filename;
      }
      assert forall i :: 0 <= i < |g| ==> b[i].0 != e.filename;
    }
  }

  /** The grouping keeps, for every file name, exactly that file's entries in
      order; its keys are distinct and are the names that occur. */
  lemma {:induction false} GroupAllFacts(es: seq<Entry>)
    ensures DistinctKeys(GroupAll(es))
    ensures forall f :: Lookup(GroupAll(es), f) == if f == "" then [] else OfFile(es, f)
    ensures forall f :: f in Keys(GroupAll(es)) <==> f != "" && OfFile(es, f) != []
  {
    if es != [] {
      var init := es[..|es| - 1];
      var e := es[|es| - 1];
      var g := GroupAll(init);
      GroupAllFacts(init);
      if e.filename != "" {
        AppendDistinct(g, e);
        AppendKeys(g, e);
        forall f
          ensures Lookup(Append(g, e), f) == if f == "" then [] else OfFile(es, f)
        {
          AppendLookup(g, e, f);
        }
      }
    }
  }

  /** The entry of a dictionary with distinct keys is found by its key. */
  lemma {:induction false} LookupAt(g: Groups, i: nat)
    requires DistinctKeys(g) && i < |g|
    ensures Lookup(g, g[i].0) == g[i].1
  {
    if i > 0 {
      LookupAt(g[1..], i - 1);
    }
  }

  /** Each group is non-empty, named, and holds exactly the entries of all
      runs that name its file, in run order. */
  lemma GroupIsFileEntries(runs: seq<RunData>, i: nat)
    requires i < |GroupAll(AllEntries(runs))|
    ensures var g := GroupAll(AllEntries(runs));
            g[i].0 != "" && g[i].1 == OfFile(AllEntries(runs), g[i].0) && g[i].1 != []
  {
    var es := AllEntries(runs);
    var g := GroupAll(es);
    GroupAllFacts(es);
    LookupAt(g, i);
    assert g[i].0 in Keys(g);
  }

  /** Adding an entry keeps the file names in first-seen order: a new name is
      appended and the others keep their places. */
  lemma GroupKeysOrder(es: seq<Entry>, e: Entry)
    ensures Keys(GroupAll(es + [e])) ==
      if e.filename == "" || e.filename in Keys(GroupAll(es)) then Keys(GroupAll(es))
      else Keys(GroupAll(es)) + [e.filename]
  {
    assert (es + [e])[..|es|] == es;
    if e.filename != "" {
      AppendKeys(GroupAll(es), e);
    }
  }

  // ---------------------------------------------------------------------------
  // Consistency of one file's results
  // ---------------------------------------------------------------------------

  /** The non-empty predictions of a file's results, in order. */
  function Preds(rs: seq<Entry>): (ps: seq<string>)
    ensures |ps| <= |rs|
  {
    if rs == [] then []
    else
      var p := rs[|rs| - 1].predicted;
      Preds(rs[..|rs| - 1]) + (if p != "" then [p] else [])
  }

  /** The `predictions` dictionary of a file. */
  function TallyOf(rs: seq<Entry>): Tally<string> {
    CountAll([], Preds(rs))
  }

  /** The tally loop: only a non-empty prediction is counted. */
  method TallyPredictions(rs: seq<Entry>) returns (t: Tally<string>)
    ensures t == TallyOf(rs)
  {
    t := [];
    for i := 0 to |rs|
      invariant t == TallyOf(rs[..i])
    {
      assert rs[..i + 1][..i] == rs[..i];
      var pred := rs[i].predicted;
      if pred != "" {
        var ps := Preds(rs[..i + 1]);
        assert ps == Preds(rs[..i]) + [pred];
        assert ps[..|ps| - 1] == Preds(rs[..i]);
        t := Bump(t, pred);
      } else {
        assert Preds(rs[..i + 1]) == Preds(rs[..i]);
      }
    }
    assert rs[..|rs|] == rs;
  }

  /** `max(predictions.items(), key=...) if predictions else ("", 0)`. */
  function Mode(t: Tally<string>): (string, nat) {
    if t == [] then ("", 0) else t[MaxIndex(t)]
  }

  /** The number of results marked correct. */
  function CorrectCount(rs: seq<Entry>): (n: nat)
    ensures n <= |rs|
  {
    if rs == [] then 0
    else CorrectCount(rs[..|rs| - 1]) + (if rs[|rs| - 1].correct then 1 else 0)
  }

  /** The consistency figures of one file. */
  datatype FileStats = FileStats(
    mostCommonPrediction: string, consistencyPercentage: real, expected: string,
    correctPercentage: real)

  function StatsOf(rs: seq<Entry>): FileStats {
    var mode := Mode(TallyOf(rs));
    FileStats(mode.0, if rs != [] then Percent(mode.1, |rs|) else 0.0,
              if rs != [] then rs[0].expected else "",
              if rs != [] then Percent(CorrectCount(rs), |rs|) else 0.0)
  }

  /** The body of the consistency loop for one file. */
  method FileConsistency(rs: seq<Entry>) returns (s: FileStats)
    ensures s == StatsOf(rs)
  {
    var predictions := TallyPredictions(rs);
    var mostCommon := if predictions != [] then predictions[MaxIndex(predictions)] else ("", 0);
    var consistency := if rs != [] then mostCommon.1 as real / |rs| as real * 100.0 else 0.0;
    var correctPct := if rs != [] then CorrectCount(rs) as real / |rs| as real * 100.0 else 0.0;
    s := FileStats(mostCommon.0, consistency, if rs != [] then rs[0].expected else "", correctPct);
  }

  /**
    * The most common prediction: no label is predicted more often; with no
    * prediction it is `("", 0)`; otherwise it is a predicted label with its
    * count, and it is the first entry of the tally, in insertion order,
    * with that count.
    */
  lemma ModeFacts(rs: seq<Entry>)
    ensures var mode := Mode(TallyOf(rs));
      mode.1 <= |Preds(rs)| <= |rs| &&
      (forall k :: Occurrences(Preds(rs), k) <= mode.1) &&
      (Preds(rs) == [] <==> mode == ("", 0)) &&
      (Preds(rs) != [] ==> mode.0 in Preds(rs) && Occurrences(Preds(rs), mode.0) == mode.1 && mode.1 > 0)
    ensures var t := TallyOf(rs);
      t != [] ==> forall j :: 0 <= j < MaxIndex(t) ==> t[j].1 < Mode(t).1
  {
    var ps := Preds(rs);
    var t := TallyOf(rs);
    CountAllFacts(ps);
    if t != [] {
      var m := MaxIndex(t);
      EntryAtMostTotal(t, m);
      forall k
        ensures Occurrences(ps, k) <= t[m].1
      {
        if k in Keys(t) {
          var j :| 0 <= j < |t| && Keys(t)[j] == k;
          GetAt(t, j);
        } else {
          GetAbsent(t, k);
        }
      }
      GetAt(t, m);
      assert t[m].0 in Keys(t) by {
        assert Keys(t)[m] == t[m].0;
      }
      assert Occurrences(ps, t[m].0) == t[m].1;
      assert t[m].0 in ps;
      OccursPositive(ps, t[m].0);
    } else {
      assert Total(t) == 0;
    }
  }

  /** A value that occurs in a list is counted at least once. */
  lemma {:induction false} OccursPositive(ks: seq<string>, k: string)
    requires k in ks
    ensures Occurrences(ks, k) > 0
  {
    if ks[|ks| - 1] != k {
      assert k in ks[..|ks| - 1] by {
        assert ks == ks[..|ks| - 1] + [ks[|ks| - 1]];
      }
      OccursPositive(ks[..|ks| - 1], k);
    }
  }

  /** Both percentages lie in [0, 100] and are 0 for a file without
      results; the consistency is the share of the most common prediction
      among all the file's results, correct or not. */
  lemma StatsBounds(rs: seq<Entry>)
    ensures var s := StatsOf(rs);
      0.0 <= s.consistencyPercentage <= 100.0 &&
      0.0 <= s.correctPercentage <= 100.0 &&
      (rs == [] ==> s == FileStats("", 0.0, "", 0.0)) &&
      (rs != [] ==> s.consistencyPercentage == Percent(Mode(TallyOf(rs)).1, |rs|) &&
                    s.expected == rs[0].expected)
  {
    ModeFacts(rs);
    PercentBounds(Mode(TallyOf(rs)).1, |rs|);
    PercentBounds(CorrectCount(rs), |rs|);
    if rs == [] {
      assert Preds(rs) == [];
    }
  }

  /** The consistency figures of every file, in the grouping's order. */
  function ConsistencyOf(g: Groups): (out: seq<(string, FileStats)>)
    ensures |out| == |g| && forall i :: 0 <= i < |g| ==> out[i] == (g[i].0, StatsOf(g[i].1))
  {
    if g == [] then [] else ConsistencyOf(g[..|g| - 1]) + [(g[|g| - 1].0, StatsOf(g[|g| - 1].1))]
  }

  /** The consistency loop over the files. */
  method AnalyzeConsistency(g: Groups) returns (out: seq<(string, FileStats)>)
    ensures out == ConsistencyOf(g)
  {
    out := [];
    for i := 0 to |g|
      invariant out == ConsistencyOf(g[..i])
    {
      assert g[..i + 1][..i] == g[..i];
      var s := FileConsistency(g[i].1);
      out := out + [(g[i].0, s)];
    }
    assert g[..|g|] == g;
  }
}
