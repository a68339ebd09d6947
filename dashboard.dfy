/**
 * The teacher dashboard: the tests fetched from the server are joined with
 * their results and their question data, summed up into the overview cards,
 * and deleted one at a time.  The join, the sums and the status colours are
 * pure; the list of tests and the id being deleted are page state.
 */
module Dashboard {
  import opened Wrappers
  import Lists
  import CreateTest

  /** A test as the server lists it; `responses` may be absent. */
  datatype TestRecord = TestRecord(id: string, title: string, status: string, responses: Option<int>)

  /** The results of one test; any count may be absent. */
  datatype ResultRecord = ResultRecord(
    testId: string,
    totalStudents: Option<int>,
    averageScore: Option<real>,
    completed: Option<int>)

  /** The questions of one test. */
  datatype DataRecord = DataRecord(testId: string, questions: Option<seq<CreateTest.Question>>)

  /** A test with its share link and its results and questions filled in. */
  datatype Merged = Merged(
    test: TestRecord,
    shareLink: string,
    totalStudents: int,
    averageScore: real,
    completed: int,
    questionBank: seq<CreateTest.Question>)

  function MergedId(m: Merged): string { m.test.id }

  function ResultFor(id: string): ResultRecord -> bool {
    (r: ResultRecord) => r.testId == id
  }

  function DataFor(id: string): DataRecord -> bool {
    (d: DataRecord) => d.testId == id
  }

  /** `i` is the first position whose record belongs to test `id`. */
  predicate FirstResult(results: seq<ResultRecord>, i: int, id: string) {
    0 <= i < |results| && results[i].testId == id && forall j :: 0 <= j < i ==> results[j].testId != id
  }

  predicate FirstData(data: seq<DataRecord>, i: int, id: string) {
    0 <= i < |data| && data[i].testId == id && forall j :: 0 <= j < i ==> data[j].testId != id
  }

  /**
   * One test of the merged list: its link is the origin, `/test/` and its id;
   * its counts come from the first result of the test, a missing result or
   * count giving 0, and its questions from the first data item of the test,
   * a missing one giving none.
   */
  function MergeOne(test: TestRecord, results: seq<ResultRecord>, data: seq<DataRecord>, origin: string): (m: Merged)
    ensures m.test == test
    ensures m.shareLink == origin + "/test/" + test.id
    ensures (forall r :: r in results ==> r.testId != test.id) ==>
      m.totalStudents == 0 && m.averageScore == 0.0 && m.completed == 0
    ensures forall i :: FirstResult(results, i, test.id) ==>
      m.totalStudents == results[i].totalStudents.GetOr(0) &&
      m.averageScore == results[i].averageScore.GetOr(0.0) &&
      m.completed == results[i].completed.GetOr(0)
    ensures (forall d :: d in data ==> d.testId != test.id) ==> m.questionBank == []
    ensures forall i :: FirstData(data, i, test.id) ==> m.questionBank == data[i].questions.GetOr([])
  {
    var result := Lists.Find(results, ResultFor(test.id));
    var item := Lists.Find(data, DataFor(test.id));
    FindsFirstResult(results, test.id);
    FindsFirstData(data, test.id);
    Merged(
      test,
      origin + "/test/" + test.id,
      if result.Some? then result.value.totalStudents.GetOr(0) else 0,
      if result.Some? then result.value.averageScore.GetOr(0.0) else 0.0,
      if result.Some? then result.value.completed.GetOr(0) else 0,
      if item.Some? then item.value.questions.GetOr([]) else [])
  }

  lemma FindsFirstResult(results: seq<ResultRecord>, id: string)
    ensures forall i :: FirstResult(results, i, id) ==> Lists.Find(results, ResultFor(id)) == Some(results[i])
  {
    forall i | FirstResult(results, i, id)
      ensures Lists.Find(results, ResultFor(id)) == Some(results[i])
    {
      Lists.FindAt(results, ResultFor(id), i);
    }
  }

  lemma FindsFirstData(data: seq<DataRecord>, id: string)
    ensures forall i :: FirstData(data, i, id) ==> Lists.Find(data, DataFor(id)) == Some(data[i])
  {
    forall i | FirstData(data, i, id)
      ensures Lists.Find(data, DataFor(id)) == Some(data[i])
    {
      Lists.FindAt(data, DataFor(id), i);
    }
  }

  /** `tests.map(...)`: one merged entry per test, in the same order. */
  function Merge(tests: seq<TestRecord>, results: seq<ResultRecord>, data: seq<DataRecord>, origin: string): (r: seq<Merged>)
    ensures |r| == |tests|
    ensures forall i :: 0 <= i < |tests| ==> r[i].test == tests[i] && r[i] == MergeOne(tests[i], results, data, origin)
  {
    seq(|tests|, i requires 0 <= i < |tests| => MergeOne(tests[i], results, data, origin))
  }

  /** `getStatusColor`: "inactive" shares the default grey with every unknown status. */
  function StatusColor(status: string): (c: string)
    ensures status == "active" ==> c == "bg-green-100 text-green-800"
    ensures status == "draft" ==> c == "bg-yellow-100 text-yellow-800"
    ensures status != "active" && status != "draft" ==> c == "bg-gray-100 text-gray-800"
  {
    match status
    case "active" => "bg-green-100 text-green-800"
    case "inactive" => "bg-gray-100 text-gray-800"
    case "draft" => "bg-yellow-100 text-yellow-800"
    case _ => "bg-gray-100 text-gray-800"
  }

  // ---------------------------------------------------------------------------
  // Overview cards
  // ---------------------------------------------------------------------------

  function TotalStudentsOf(m: Merged): int { m.totalStudents }
  function CompletedOf(m: Merged): int { m.completed }
  function ResponsesOf(m: Merged): int { m.test.responses.GetOr(0) }

  /** `ts.reduce((sum, t) => sum + f(t), 0)`: no negative term gives no negative sum. */
  function SumBy(ts: seq<Merged>, f: Merged -> int): (r: int)
    ensures (forall i :: 0 <= i < |ts| ==> f(ts[i]) >= 0) ==> r >= 0
  {
    if ts == [] then 0 else SumBy(ts[..|ts| - 1], f) + f(ts[|ts| - 1])
  }

  /** A sum over a concatenation is the sum of the two sums. */
  lemma {:induction false} SumByAppend(a: seq<Merged>, b: seq<Merged>, f: Merged -> int)
    ensures SumBy(a + b, f) == SumBy(a, f) + SumBy(b, f)
    decreases |b|
  {
    if b == [] {
      assert a + b == a;
    } else {
      var b' := b[..|b| - 1];
      assert (a + b)[..|a + b| - 1] == a + b';
      SumByAppend(a, b', f);
    }
  }

  /**
   * The sum of the per-test averages, in the same left-to-right order; no
   * negative average gives no negative sum.
   */
  function SumAverages(ts: seq<Merged>): (r: real)
    ensures (forall i :: 0 <= i < |ts| ==> ts[i].averageScore >= 0.0) ==> r >= 0.0
  {
    if ts == [] then 0.0 else SumAverages(ts[..|ts| - 1]) + ts[|ts| - 1].averageScore
  }

  /** The mean of the per-test averages, 0 for no tests. */
  function AverageScore(ts: seq<Merged>): (a: real)
    ensures ts == [] ==> a == 0.0
    ensures ts != [] ==> a * |ts| as real == SumAverages(ts)
  {
    if |ts| > 0 then SumAverages(ts) / |ts| as real else 0.0
  }

  /** Completed over students, as a percentage; 0 when no student is counted. */
  function PassRate(ts: seq<Merged>): (p: real)
    ensures SumBy(ts, TotalStudentsOf) <= 0 ==> p == 0.0
    ensures SumBy(ts, TotalStudentsOf) > 0 ==>
      p * SumBy(ts, TotalStudentsOf) as real == 100.0 * SumBy(ts, CompletedOf) as real
  {
    var students := SumBy(ts, TotalStudentsOf);
    var passed := SumBy(ts, CompletedOf);
    if students > 0 then (passed as real / students as real) * 100.0 else 0.0
  }

  /**
   * The responses card: the sum of every test's responses, a missing count
   * giving 0, so tests without a count add nothing.
   */
  function TotalResponses(ts: seq<Merged>): (n: int)
    ensures (forall i :: 0 <= i < |ts| ==> ts[i].test.responses.GetOr(0) >= 0) ==> n >= 0
    ensures (forall i :: 0 <= i < |ts| ==> ts[i].test.responses.None?) ==> n == 0
  {
    NoResponses(ts);
    SumBy(ts, ResponsesOf)
  }

  lemma {:induction false} NoResponses(ts: seq<Merged>)
    ensures (forall i :: 0 <= i < |ts| ==> ts[i].test.responses.None?) ==> SumBy(ts, ResponsesOf) == 0
  {
    if ts != [] {
      NoResponses(ts[..|ts| - 1]);
    }
  }

  /** When no response count is negative, the total is at least each one. */
  lemma {:induction false} ResponsesBound(ts: seq<Merged>)
    requires forall t :: t in ts ==> ResponsesOf(t) >= 0
    ensures forall t :: t in ts ==> ResponsesOf(t) <= TotalResponses(ts)
  {
    if ts != [] {
      var init := ts[..|ts| - 1];
      ResponsesBound(init);
      forall t | t in ts
        ensures ResponsesOf(t) <= TotalResponses(ts)
      {
        if t != ts[|ts| - 1] {
          assert t in init by {
            var i :| 0 <= i < |ts| && ts[i] == t;
            assert init[i] == t;
          }
        }
      }
    }
  }

  predicate IsActive(t: Merged) {
    t.test.status == "active"
  }

  /** The number of tests whose status is "active". */
  function ActiveCount(ts: seq<Merged>): (n: nat)
    ensures n <= |ts|
    ensures n == |ts| <==> forall t :: t in ts ==> IsActive(t)
    ensures n == 0 <==> forall t :: t in ts ==> !IsActive(t)
  {
    ActiveFacts(ts);
    |Lists.Filter(ts, IsActive)|
  }

  lemma ActiveFacts(ts: seq<Merged>)
    ensures |Lists.Filter(ts, IsActive)| == |ts| <==> forall t :: t in ts ==> IsActive(t)
    ensures Lists.Filter(ts, IsActive) == [] <==> forall t :: t in ts ==> !IsActive(t)
  {
    var active := Lists.Filter(ts, IsActive);
    Lists.FilterMembers(ts, IsActive);
    if forall t :: t in ts ==> IsActive(t) {
      Lists.FilterAll(ts, IsActive);
    }
    if exists t :: t in ts && !IsActive(t) {
      var t :| t in ts && !IsActive(t);
      Lists.FilterShorter(ts, IsActive, t);
    }
    if active != [] {
      assert active[0] in active;
    }
  }

  /** The active count of two lists together is the sum of their counts. */
  lemma ActiveCountAppend(a: seq<Merged>, b: seq<Merged>)
    ensures ActiveCount(a + b) == ActiveCount(a) + ActiveCount(b)
  {
    Lists.FilterAppend(a, b, IsActive);
  }

  /** A sum of values each between 0 and a bound lies between 0 and the sum of the bounds. */
  lemma {:induction false} SumBetween(ts: seq<Merged>, f: Merged -> int, g: Merged -> int)
    requires forall t :: t in ts ==> 0 <= f(t) <= g(t)
    ensures 0 <= SumBy(ts, f) <= SumBy(ts, g)
  {
    if ts != [] {
      SumBetween(ts[..|ts| - 1], f, g);
    }
  }

  /** A sum of averages each between 0 and 100 lies between 0 and 100 times the count. */
  lemma {:induction false} AveragesBetween(ts: seq<Merged>)
    requires forall t :: t in ts ==> 0.0 <= t.averageScore <= 100.0
    ensures 0.0 <= SumAverages(ts) <= 100.0 * |ts| as real
  {
    if ts != [] {
      AveragesBetween(ts[..|ts| - 1]);
    }
  }

  /** When every test's average is a percentage, so is their mean. */
  lemma AverageInRange(ts: seq<Merged>)
    requires forall t :: t in ts ==> 0.0 <= t.averageScore <= 100.0
    ensures 0.0 <= AverageScore(ts) <= 100.0
  {
    if ts != [] {
      AveragesBetween(ts);
      MeanBetween(SumAverages(ts), |ts| as real, AverageScore(ts), 100.0);
    }
  }

  /** A quotient `a = sum / n` of a sum between 0 and `hi * n` lies between 0 and `hi`. */
  lemma MeanBetween(sum: real, n: real, a: real, hi: real)
    requires n > 0.0 && a * n == sum && 0.0 <= sum <= hi * n
    ensures 0.0 <= a <= hi
  {
    assert (a - hi) * n == sum - hi * n;
  }

  /**
   * When no test has more completions than students, the pass rate is a
   * percentage.
   */
  lemma PassRateInRange(ts: seq<Merged>)
    requires forall t :: t in ts ==> 0 <= t.completed <= t.totalStudents
    ensures 0.0 <= PassRate(ts) <= 100.0
  {
    SumBetween(ts, CompletedOf, TotalStudentsOf);
    var students := SumBy(ts, TotalStudentsOf) as real;
    var passed := SumBy(ts, CompletedOf) as real;
    if students > 0.0 {
      MeanBetween(100.0 * passed, students, PassRate(ts), 100.0);
    }
  }

  /** Removing the tests with one id keeps every other test, in order, and only them. */
  lemma DeleteKeepsOthers(ts: seq<Merged>, id: string)
    ensures forall t :: t in Lists.WithoutKey(ts, MergedId, id) <==> t in ts && t.test.id != id
    ensures Lists.IsSubsequence(Lists.WithoutKey(ts, MergedId, id), ts)
    ensures (forall t :: t in ts ==> t.test.id != id) ==> Lists.WithoutKey(ts, MergedId, id) == ts
  {
    Lists.WithoutKeyProperties(ts, MergedId, id);
  }

  // ---------------------------------------------------------------------------
  // Page state
  // ---------------------------------------------------------------------------

  /** The page's tests, the id whose delete is in flight and the loading flag. */
  class DashboardPage {
    var tests: seq<Merged>
    var deletingTestId: Option<string>
    var isLoading: bool

    constructor ()
      ensures tests == [] && deletingTestId == None && !isLoading
    {
      tests := [];
      deletingTestId := None;
      isLoading := false;
    }

    /**
     * `fetchTests`: when all three requests answer, the tests become the
     * merged list; otherwise they stay as they were.  Loading ends either way.
     * The list is replaced outright, not derived from the current one, so a
     * `FinishDelete` that ran while the fetch was in flight is undone.
     */
    method LoadTests(ok: bool, fetched: seq<TestRecord>, results: seq<ResultRecord>,
                     data: seq<DataRecord>, origin: string)
      modifies this
      ensures ok ==> tests == Merge(fetched, results, data, origin)
      ensures !ok ==> tests == old(tests)
      ensures !isLoading && deletingTestId == old(deletingTestId)
    {
      isLoading := true;
      if ok {
        tests := Merge(fetched, results, data, origin);
      }
      isLoading := false;
    }

    /** The delete button of a test is disabled while its own delete is in flight. */
    predicate DeleteDisabled(id: string)
      reads this
    {
      deletingTestId == Some(id)
    }

    /**
     * The start of `handleDeleteTest`: nothing happens unless the teacher
     * confirms; a confirmed delete marks its id as in flight, which disables
     * that test's button, until the requests finish in `FinishDelete`.  Other
     * deletes and a reload may run in between.
     */
    method StartDelete(id: string, confirmed: bool)
      modifies this
      ensures confirmed ==> deletingTestId == Some(id) && DeleteDisabled(id)
      ensures !confirmed ==> deletingTestId == old(deletingTestId)
      ensures tests == old(tests) && isLoading == old(isLoading)
    {
      if confirmed {
        deletingTestId := Some(id);
      }
    }

    /**
     * The end of a confirmed `handleDeleteTest`, once its three DELETE
     * requests settle.  When they all resolve, the tests with that id leave
     * the list as it is now and the others keep their order; the answers'
     * statuses are not looked at, so a 404 or 500 answer still removes the
     * test.  Only a request that rejects, which `fetch` does on a network
     * failure, leaves the list unchanged.  The in-flight id is cleared
     * whichever id it holds, so of two overlapping deletes the first to finish
     * re-enables the other's button.
     */
    method FinishDelete(id: string, requestsResolve: bool)
      modifies this
      ensures deletingTestId == None
      ensures requestsResolve ==> tests == Lists.WithoutKey(old(tests), MergedId, id)
      ensures !requestsResolve ==> tests == old(tests)
      ensures forall t :: t in tests ==> t in old(tests)
      ensures isLoading == old(isLoading)
    {
      if requestsResolve {
        DeleteKeepsOthers(tests, id);
        tests := Lists.WithoutKey(tests, MergedId, id);
      }
      deletingTestId := None;
    }
  }
}
