/**
 * The results page of a teacher: a constant list of test results, searched by
 * title, each shown with a status colour and a completion percentage.
 */
module Results {
  import Text
  import JsMath
  import Lists
  import Search

  datatype TestResult = TestResult(
    id: string,
    title: string,
    subject: string,
    totalStudents: int,
    completed: int,
    averageScore: real,
    createdAt: string,
    status: string)

  function Title(r: TestResult): string { r.title }

  /** The results shown on the page. */
  const TestResults: seq<TestResult> := [
    TestResult("1", "Mathematics Quiz - Algebra", "Mathematics", 32, 28, 83.2, "2024-01-15", "completed"),
    TestResult("2", "Physics - Motion & Forces", "Physics", 25, 25, 78.5, "2024-01-10", "completed"),
    TestResult("3", "English Literature Quiz", "English", 30, 15, 85.0, "2024-01-20", "active")]

  /**
   * The results whose title contains the search term, ignoring case, in their
   * order and each as often as in the list.  The "no results" message shows
   * when this is empty, which is exactly when no title matches.
   */
  function FilteredResults(results: seq<TestResult>, term: string): (r: seq<TestResult>)
    ensures forall x :: x in r <==> x in results && Text.MatchesTerm(x.title, term)
    ensures Lists.IsSubsequence(r, results)
    ensures forall x :: x in results ==>
      multiset(r)[x] == if Text.MatchesTerm(x.title, term) then multiset(results)[x] else 0
    ensures r == [] <==> forall x :: x in results ==> !Text.MatchesTerm(x.title, term)
    ensures term == "" ==> r == results
  {
    Search.Matching(results, Title, term)
  }

  /** `getStatusColor`: completed is green, active is blue, anything else grey. */
  function StatusColor(status: string): (c: string)
    ensures status == "completed" ==> c == "bg-green-100 text-green-800"
    ensures status == "active" ==> c == "bg-blue-100 text-blue-800"
    ensures status != "completed" && status != "active" ==> c == "bg-gray-100 text-gray-800"
  {
    match status
    case "completed" => "bg-green-100 text-green-800"
    case "active" => "bg-blue-100 text-blue-800"
    case _ => "bg-gray-100 text-gray-800"
  }

  /**
   * `Math.round(completed / totalStudents * 100)`: with students, the whole
   * percentage nearest to the completed share, halves rounded up; there is no
   * guard for no students, whose result is not a finite number.
   */
  function Completion(r: TestResult): (c: JsMath.Rounded)
    ensures c.Finite? <==> r.totalStudents != 0
    ensures r.totalStudents > 0 ==>
      2 * r.totalStudents * c.value - r.totalStudents <= 200 * r.completed < 2 * r.totalStudents * c.value + r.totalStudents
  {
    JsMath.RoundedPercent(r.completed, r.totalStudents)
  }

  /** Completion is a whole percentage when no more students completed than there are. */
  lemma CompletionInRange(r: TestResult)
    requires 0 <= r.completed <= r.totalStudents && r.totalStudents > 0
    ensures Completion(r).Finite? && 0 <= Completion(r).value <= 100
    ensures r.completed == r.totalStudents ==> Completion(r).value == 100
  {
    JsMath.PercentInRange(r.completed, r.totalStudents);
    if r.completed == r.totalStudents {
      JsMath.RoundDivUnique(100 * r.completed, r.totalStudents, 100);
    }
  }

  /** A result with no students shows "NaN%", or "Infinity%" when some completed. */
  lemma CompletionWithoutStudents(r: TestResult)
    requires r.totalStudents == 0 && r.completed >= 0
    ensures r.completed == 0 ==> Completion(r) == JsMath.NaN
    ensures r.completed > 0 ==> Completion(r) == JsMath.Infinity
  {
  }

  /** The three results show 88%, 100% and 50% completion. */
  lemma ShownCompletion()
    ensures Completion(TestResults[0]) == JsMath.Finite(88)
    ensures Completion(TestResults[1]) == JsMath.Finite(100)
    ensures Completion(TestResults[2]) == JsMath.Finite(50)
  {
    JsMath.RoundDivUnique(2800, 32, 88);
    JsMath.RoundDivUnique(2500, 25, 100);
    JsMath.RoundDivUnique(1500, 30, 50);
  }
}
