/**
  * `aggregate_results` of the repeated-run driver: the ten newest result
  * files (by name, which carries the timestamp) are loaded and aggregated.
  * The directory listing is a parameter, and so is reading a file.
  */
module RunTests {
  import opened Wrappers
  import opened PyStr
  import opened Stats
  import opened Consistency

  /** At most this many result files are aggregated. */
  const MaxFiles := 10

  /** No later name sorts above an earlier one. */
  predicate Descending(s: seq<string>) {
    forall i, j :: 0 <= i < j < |s| ==> LessEq(s[j], s[i])
  }

  /** Inserting `x` into a descending list before the first name not above it. */
  function Insert(x: string, s: seq<string>): (r: seq<string>)
    ensures multiset(r) == multiset(s) + multiset{x}
  {
    if s == [] || LessEq(s[0], x) then [x] + s
    else
      assert s == [s[0]] + s[1..];
      [s[0]] + Insert(x, s[1..])
  }

  /** `sorted(names, reverse=True)`. */
  function SortDesc(s: seq<string>): (r: seq<string>)
    ensures multiset(r) == multiset(s)
  {
    if s == [] then []
    else
      assert s == [s[0]] + s[1..];
      Insert(s[0], SortDesc(s[1..]))
  }

  lemma {:induction false} InsertDescending(x: string, s: seq<string>)
    requires Descending(s)
    ensures Descending(Insert(x, s))
  {
    var r := Insert(x, s);
    if s == [] || LessEq(s[0], x) {
      forall j | 0 <= j < |s|
        ensures LessEq(s[j], x)
      {
        if j > 0 {
          LessEqTransitive(s[j], s[0], x);
        }
      }
      assert forall j :: 0 < j < |r| ==> r[j] == s[j - 1];
    } else {
      LessEqTotal(s[0], x);
      var rest := s[1..];
      InsertDescending(x, rest);
      var tail := Insert(x, rest);
      assert r == [s[0]] + tail;
      forall j | 0 <= j < |tail|
        ensures LessEq(tail[j], s[0])
      {
        assert tail[j] in multiset(rest) + multiset{x};
        if tail[j] != x {
          assert tail[j] in rest;
        }
      }
    }
  }

  /** Sorting gives a descending permutation of the names. */
  lemma {:induction false} SortDescFacts(s: seq<string>)
    ensures Descending(SortDesc(s)) && |SortDesc(s)| == |s|
  {
    if s != [] {
      SortDescFacts(s[1..]);
      InsertDescending(s[0], SortDesc(s[1..]));
    }
    assert |multiset(SortDesc(s))| == |multiset(s)|;
  }

  /** `result_files.sort(reverse=True); result_files[:10]`. */
  function Newest(found: seq<string>): seq<string> {
    var sorted := SortDesc(found);
    if |sorted| <= MaxFiles then sorted else sorted[..MaxFiles]
  }

  /**
    * The selection keeps `min(10, len(found))` of the found names, in
    * descending order, and no name left out sorts above a name kept.
    */
  lemma NewestFacts(found: seq<string>)
    ensures var sel := Newest(found);
      |sel| == (if |found| <= MaxFiles then |found| else MaxFiles) &&
      multiset(sel) <= multiset(found) && Descending(sel) &&
      forall x, y :: x in sel && y in multiset(found) - multiset(sel) ==> LessEq(y, x)
  {
    var sorted := SortDesc(found);
    SortDescFacts(found);
    var sel := Newest(found);
    var k := |sel|;
    var rest := sorted[k..];
    assert sorted == sel + rest;
    assert multiset(found) == multiset(sel) + multiset(rest);
    forall x, y | x in sel && y in multiset(found) - multiset(sel)
      ensures LessEq(y, x)
    {
      assert y in multiset(rest);
      var i :| 0 <= i < k && sel[i] == x;
      var j :| 0 <= j < |rest| && rest[j] == y;
      assert sorted[i] == x && sorted[k + j] == y;
    }
  }

  /** The aggregated report of the repeated-run driver. */
  datatype Aggregate = Aggregate(numRuns: nat, summary: RunsSummary, byFile: seq<(string, FileStats)>)

  function AggregateOf(runs: seq<RunData>): Aggregate {
    Aggregate(|runs|, SummaryOf(runs), ConsistencyOf(GroupAll(AllEntries(runs))))
  }

  /** `aggregate_results`: `None` when no result file was found. */
  method AggregateResults(found: seq<string>, load: string -> Option<RunData>)
    returns (r: Option<Aggregate>)
    ensures found == [] <==> r.None?
    ensures r.Some? ==> r.value == AggregateOf(Loaded(Newest(found), load))
    ensures r.Some? ==> r.value.numRuns <= MaxFiles
  {
    if found == [] {
      return None;
    }
    var files := Newest(found);
    NewestFacts(found);
    var runs := LoadRuns(files, load);
    LoadedFacts(files, load);
    var accuracies := CollectColumn(runs, AccuracyColumn);
    var completions := CollectColumn(runs, CompletionColumn);
    var responseTimes := CollectColumn(runs, ResponseTimeColumn);
    var costs := CollectColumn(runs, CostColumn);
    var tokens := CollectColumn(runs, TokensColumn);
    var groups := GroupByFile(runs);
    var byFile := AnalyzeConsistency(groups);
    var summary := RunsSummary(Mean(accuracies), Mean(completions), Mean(responseTimes),
                               Sum(costs), Mean(costs), Sum(tokens), Mean(tokens));
    r := Some(Aggregate(|runs|, summary, byFile));
  }
}
