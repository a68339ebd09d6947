/**
 * The analytics page of a teacher: the student search, the top-five ranking,
 * the colour band of a score, the CSV export of the searched students and the
 * hours shown for the total time spent.  Everything on the page is derived
 * from constant data and the search term, so the module is pure.
 */
module Analytics {
  import opened Wrappers
  import Text
  import Decimal
  import JsMath
  import Lists
  import Search

  /**
   * One entry of the student results.  `averageTenths` is the average score
   * in tenths of a percent (92.4 is 924): every average on the page has one
   * decimal, so tenths hold it exactly.
   */
  datatype StudentResult = StudentResult(
    id: string,
    studentName: string,
    className: string,
    testsTaken: int,
    averageTenths: int,
    bestScore: int,
    totalTimeSpent: int,
    lastTestDate: string,
    scores: seq<int>)

  function StudentName(s: StudentResult): string { s.studentName }

  /**
   * The students whose name contains the search term, ignoring case, in their
   * order and each as often as in the list.
   */
  function FilteredStudents(students: seq<StudentResult>, term: string): (r: seq<StudentResult>)
    ensures forall s :: s in r <==> s in students && Text.MatchesTerm(s.studentName, term)
    ensures Lists.IsSubsequence(r, students)
    ensures forall s :: s in students ==>
      multiset(r)[s] == if Text.MatchesTerm(s.studentName, term) then multiset(students)[s] else 0
    ensures r == [] <==> forall s :: s in students ==> !Text.MatchesTerm(s.studentName, term)
    ensures term == "" ==> r == students
  {
    Search.Matching(students, StudentName, term)
  }

  // ---------------------------------------------------------------------------
  // Top performers
  // ---------------------------------------------------------------------------

  /** Non-increasing by average score. */
  predicate SortedDesc(s: seq<StudentResult>) {
    forall i, j :: 0 <= i < j < |s| ==> s[i].averageTenths >= s[j].averageTenths
  }

  /**
   * Inserts `x`, which came before every element of `s` in the input, ahead of
   * the first element it is not below; equal averages keep their input order.
   */
  function Insert(x: StudentResult, s: seq<StudentResult>): (r: seq<StudentResult>)
    requires SortedDesc(s)
    ensures SortedDesc(r)
    ensures multiset(r) == multiset(s) + multiset{x}
    ensures |r| == |s| + 1
    ensures r[0] == x || (s != [] && r[0] == s[0])
  {
    if s == [] || s[0].averageTenths <= x.averageTenths then [x] + s
    else
      TailSorted(s);
      var rest := Insert(x, s[1..]);
      ConsSorted(s[0], rest);
      ConsMultiset(s, rest, x);
      [s[0]] + rest
  }

  /** The tail of a sorted sequence is sorted and not above its head. */
  lemma TailSorted(s: seq<StudentResult>)
    requires SortedDesc(s) && s != []
    ensures SortedDesc(s[1..])
    ensures |s| > 1 ==> s[1].averageTenths <= s[0].averageTenths
  {
  }

  lemma ConsMultiset(s: seq<StudentResult>, rest: seq<StudentResult>, x: StudentResult)
    requires s != [] && multiset(rest) == multiset(s[1..]) + multiset{x}
    ensures multiset([s[0]] + rest) == multiset(s) + multiset{x}
  {
    assert s == [s[0]] + s[1..];
  }

  /** An element not below the head of a sorted sequence can go in front of it. */
  lemma ConsSorted(h: StudentResult, s: seq<StudentResult>)
    requires SortedDesc(s)
    requires s != [] ==> s[0].averageTenths <= h.averageTenths
    ensures SortedDesc([h] + s)
  {
  }

  /**
   * `[...xs].sort((a, b) => b.averageScore - a.averageScore)`: a stable sort
   * on a copy, highest average first.
   */
  function SortByAverage(xs: seq<StudentResult>): (r: seq<StudentResult>)
    ensures SortedDesc(r)
    ensures multiset(r) == multiset(xs)
  {
    if xs == [] then []
    else
      assert xs == [xs[0]] + xs[1..];
      Insert(xs[0], SortByAverage(xs[1..]))
  }

  const TopCount := 5

  /**
   * The first five of the sorted copy of ALL students (not of the searched
   * ones): at most five, best first, drawn from the students, and no student
   * left out has a higher average than one shown.
   */
  function TopPerformers(students: seq<StudentResult>): (r: seq<StudentResult>)
    ensures |r| == if |students| < TopCount then |students| else TopCount
    ensures SortedDesc(r)
    ensures multiset(r) <= multiset(students)
    ensures forall x, y :: x in r && y in multiset(students) - multiset(r) ==> x.averageTenths >= y.averageTenths
  {
    var sorted := SortByAverage(students);
    var k := if |sorted| < TopCount then |sorted| else TopCount;
    PrefixOfSorted(sorted, k);
    sorted[..k]
  }

  /** A prefix of a sorted sequence is sorted and dominates the rest. */
  lemma PrefixOfSorted(s: seq<StudentResult>, k: nat)
    requires SortedDesc(s) && k <= |s|
    ensures SortedDesc(s[..k])
    ensures multiset(s[..k]) <= multiset(s)
    ensures forall x, y :: x in s[..k] && y in multiset(s) - multiset(s[..k]) ==> x.averageTenths >= y.averageTenths
  {
    assert s == s[..k] + s[k..];
    assert multiset(s) == multiset(s[..k]) + multiset(s[k..]);
    forall x, y | x in s[..k] && y in multiset(s) - multiset(s[..k])
      ensures x.averageTenths >= y.averageTenths
    {
      assert y in multiset(s[k..]);
      SortedAcrossSplit(s, k, x, y);
    }
  }

  /** In a sorted sequence, an element before position `k` is not below one from `k` on. */
  lemma SortedAcrossSplit(s: seq<StudentResult>, k: nat, x: StudentResult, y: StudentResult)
    requires SortedDesc(s) && k <= |s|
    requires x in s[..k] && y in s[k..]
    ensures x.averageTenths >= y.averageTenths
  {
    var i :| 0 <= i < k && s[..k][i] == x;
    var j :| 0 <= j < |s| - k && s[k..][j] == y;
    assert s[i] == x && s[k + j] == y;
  }

  // ---------------------------------------------------------------------------
  // Score colour
  // ---------------------------------------------------------------------------

  /** The five colour bands of a score. */
  datatype Band = Excellent | Good | Fair | Poor | Failing

  /** `getScoreColor`: the first threshold the score reaches, 90, 80, 70 or 60. */
  function ScoreBand(score: real): (b: Band)
    ensures b == Excellent <==> score >= 90.0
    ensures b == Good <==> 80.0 <= score < 90.0
    ensures b == Fair <==> 70.0 <= score < 80.0
    ensures b == Poor <==> 60.0 <= score < 70.0
    ensures b == Failing <==> score < 60.0
  {
    if score >= 90.0 then Excellent
    else if score >= 80.0 then Good
    else if score >= 70.0 then Fair
    else if score >= 60.0 then Poor
    else Failing
  }

  /** The Tailwind colour of each band. */
  function ColourName(b: Band): string {
    match b
    case Excellent => "green"
    case Good => "blue"
    case Fair => "yellow"
    case Poor => "orange"
    case Failing => "red"
  }

  /**
   * The CSS classes of each band: its colour as text (shade 600), background
   * (shade 50) and border (shade 200).
   */
  function BandClasses(b: Band): string {
    "text-" + ColourName(b) + "-600 bg-" + ColourName(b) + "-50 border-" + ColourName(b) + "-200"
  }

  function BandRank(b: Band): nat {
    match b
    case Failing => 0
    case Poor => 1
    case Fair => 2
    case Good => 3
    case Excellent => 4
  }

  /**
   * The colour of an average, whose value is `averageTenths / 10`: the green
   * classes from 90.0, blue from 80.0, yellow from 70.0, orange from 60.0 and
   * red below.  The ranges cover every average, and `BandClassesDistinct`
   * makes the colour tell the range.
   */
  function ScoreColor(s: StudentResult): (c: string)
    ensures s.averageTenths >= 900 ==> c == BandClasses(Excellent)
    ensures 800 <= s.averageTenths < 900 ==> c == BandClasses(Good)
    ensures 700 <= s.averageTenths < 800 ==> c == BandClasses(Fair)
    ensures 600 <= s.averageTenths < 700 ==> c == BandClasses(Poor)
    ensures s.averageTenths < 600 ==> c == BandClasses(Failing)
  {
    BandClasses(ScoreBand(s.averageTenths as real / 10.0))
  }

  /** A higher score never falls in a lower band. */
  lemma ScoreBandMonotone(a: real, b: real)
    requires a <= b
    ensures BandRank(ScoreBand(a)) <= BandRank(ScoreBand(b))
  {
  }

  /** Each band has its own classes, so the colour tells the band. */
  lemma BandClassesDistinct(b: Band, c: Band)
    requires b != c
    ensures BandClasses(b) != BandClasses(c)
  {
    ClassesColourInitial(b);
    ClassesColourInitial(c);
  }

  /** The sixth character of the classes, right after `"text-"`, is the colour's initial. */
  lemma ClassesColourInitial(b: Band)
    ensures |BandClasses(b)| > 5 && BandClasses(b)[5] == ColourName(b)[0]
  {
    var c := ColourName(b);
    assert BandClasses(b) == "text-" + (c + ("-600 bg-" + c + "-50 border-" + c + "-200"));
  }

  // ---------------------------------------------------------------------------
  // CSV export
  // ---------------------------------------------------------------------------

  const CsvHeader: seq<string> := [
    "Student Name", "Class", "Tests Taken", "Average Score (%)",
    "Best Score (%)", "Total Time (min)", "Last Test Date"]

  /** No character of the text is a line break or a comma. */
  predicate Plain(s: string) {
    '\n' !in s && ',' !in s
  }

  /**
   * The seven fields of a student's row, in header order; the numeric fields
   * are written with decimal digits, a sign and a point only.
   */
  function CsvFields(s: StudentResult): (r: seq<string>)
    ensures |r| == |CsvHeader|
    ensures r[0] == s.studentName && r[1] == s.className && r[6] == s.lastTestDate
    ensures Plain(r[2]) && Plain(r[3]) && Plain(r[4]) && Plain(r[5])
  {
    [s.studentName, s.className, Decimal.IntToString(s.testsTaken),
     Decimal.TenthsToString(s.averageTenths), Decimal.IntToString(s.bestScore),
     Decimal.IntToString(s.totalTimeSpent), s.lastTestDate]
  }

  /** No field holds the character `c`. */
  predicate FieldsAvoid(fields: seq<string>, c: char) {
    forall k :: 0 <= k < |fields| ==> c !in fields[k]
  }

  /**
   * A row: its fields joined with commas, with no quoting.  A row holds a
   * line break only if a field does, and fields without commas split back.
   */
  function CsvRow(fields: seq<string>): (r: string)
    ensures FieldsAvoid(fields, '\n') ==> '\n' !in r
    ensures fields != [] && FieldsAvoid(fields, ',') ==> Text.Split(r, ',') == fields
  {
    RowFacts(fields);
    Text.Join(fields, ',')
  }

  lemma RowFacts(fields: seq<string>)
    ensures FieldsAvoid(fields, '\n') ==> '\n' !in Text.Join(fields, ',')
    ensures fields != [] && FieldsAvoid(fields, ',') ==> Text.Split(Text.Join(fields, ','), ',') == fields
  {
    if FieldsAvoid(fields, '\n') {
      Text.JoinAvoids(fields, ',', '\n');
    }
    if fields != [] && FieldsAvoid(fields, ',') {
      Text.SplitJoin(fields, ',');
    }
  }

  /** The row of one student. */
  function StudentRow(s: StudentResult): string {
    CsvRow(CsvFields(s))
  }

  /** One row per student, in order. */
  function StudentRows(students: seq<StudentResult>): (r: seq<string>)
    ensures |r| == |students|
    ensures forall i :: 0 <= i < |students| ==> r[i] == StudentRow(students[i])
  {
    if students == [] then [] else [StudentRow(students[0])] + StudentRows(students[1..])
  }

  /** The header line followed by one line per student, in order. */
  function CsvLines(students: seq<StudentResult>): (r: seq<string>)
    ensures |r| == |students| + 1
    ensures r[0] == CsvRow(CsvHeader)
    ensures forall i :: 0 <= i < |students| ==> r[i + 1] == StudentRow(students[i])
  {
    var header := CsvRow(CsvHeader);
    var rows := StudentRows(students);
    PrependLine(header, rows);
    [header] + rows
  }

  lemma PrependLine(line: string, lines: seq<string>)
    ensures |[line] + lines| == |lines| + 1 && ([line] + lines)[0] == line
    ensures forall i :: 0 <= i < |lines| ==> ([line] + lines)[i + 1] == lines[i]
  {
  }

  /**
   * `exportAllData`: the lines of the searched students joined with `"\n"`, no
   * trailing newline.  It starts with the header line, and is only that line
   * when no student matches.
   */
  function ExportCsv(students: seq<StudentResult>, term: string): (r: string)
    ensures Text.StartsWith(r, CsvRow(CsvHeader))
    ensures (forall s :: s in students ==> !Text.MatchesTerm(s.studentName, term)) ==> r == CsvRow(CsvHeader)
  {
    var lines := CsvLines(FilteredStudents(students, term));
    Text.JoinStartsWith(lines, '\n');
    Text.Join(lines, '\n')
  }

  /** The text fields of a student hold no line break and no comma. */
  predicate PlainStudent(s: StudentResult) {
    Plain(s.studentName) && Plain(s.className) && Plain(s.lastTestDate)
  }

  /** A row of plain fields splits on commas back into exactly its seven fields. */
  lemma RowColumns(s: StudentResult)
    requires PlainStudent(s)
    ensures Text.Split(CsvRow(CsvFields(s)), ',') == CsvFields(s)
  {
    var f := CsvFields(s);
    Text.SplitJoin(f, ',');
  }

  /** No name, class or date of the student holds a line break; commas are allowed. */
  predicate NoLineBreaks(s: StudentResult) {
    '\n' !in s.studentName && '\n' !in s.className && '\n' !in s.lastTestDate
  }

  /**
   * When no name, class or date holds a line break, the export splits on
   * `"\n"` into the header line and then one row per searched student, so it
   * has one line more than the searched list.
   */
  lemma ExportLines(students: seq<StudentResult>, term: string)
    requires forall s :: s in students ==> NoLineBreaks(s)
    ensures Text.Split(ExportCsv(students, term), '\n') == CsvLines(FilteredStudents(students, term))
    ensures |Text.Split(ExportCsv(students, term), '\n')| == 1 + |FilteredStudents(students, term)|
    ensures Text.Split(ExportCsv(students, term), '\n')[0] == CsvRow(CsvHeader)
  {
    var shown := FilteredStudents(students, term);
    LinesHaveNoBreak(shown);
    Text.SplitJoin(CsvLines(shown), '\n');
  }

  /** No line of the export holds a line break when no text field does. */
  lemma LinesHaveNoBreak(shown: seq<StudentResult>)
    requires forall s :: s in shown ==> NoLineBreaks(s)
    ensures forall k :: 0 <= k < |CsvLines(shown)| ==> '\n' !in CsvLines(shown)[k]
  {
    var lines := CsvLines(shown);
    forall k | 0 <= k < |lines|
      ensures '\n' !in lines[k]
    {
      if k == 0 {
        HeaderHasNoBreak();
      } else {
        assert shown[k - 1] in shown;
        RowHasNoBreak(shown[k - 1]);
      }
    }
  }

  lemma RowHasNoBreak(s: StudentResult)
    requires NoLineBreaks(s)
    ensures '\n' !in CsvRow(CsvFields(s))
  {
    var f := CsvFields(s);
    assert forall j :: 0 <= j < |f| ==> '\n' !in f[j];
    Text.JoinAvoids(f, ',', '\n');
  }

  lemma HeaderHasNoBreak()
    ensures '\n' !in CsvRow(CsvHeader)
  {
    Text.JoinAvoids(CsvHeader, ',', '\n');
  }

  /**
   * Fields are not quoted: a name written "Last, First" adds a column, so the
   * row splits into eight pieces instead of seven.
   */
  lemma CommaInNameAddsColumn(s: StudentResult, last: string, first: string)
    requires s.studentName == last + "," + first
    requires Plain(last) && Plain(first) && Plain(s.className) && Plain(s.lastTestDate)
    ensures |Text.Split(CsvRow(CsvFields(s)), ',')| == |CsvHeader| + 1
  {
    var f := CsvFields(s);
    var split := [last, first] + f[1..];
    assert Text.Join(f, ',') == last + [','] + Text.Join(split[1..], ',') by {
      assert split[1..] == [first] + f[1..];
      assert Text.Join(split[1..], ',') == first + [','] + Text.Join(f[1..], ',');
    }
    Text.SplitJoin(split[1..], ',');
    Text.SplitPiece(last, Text.Join(split[1..], ','), ',');
  }

  /** The numeric columns read back, with `parseInt`, as the numbers written. */
  lemma NumbersReadBack(s: StudentResult)
    ensures Decimal.ParseInt(CsvFields(s)[2]) == Some(s.testsTaken)
    ensures Decimal.ParseInt(CsvFields(s)[4]) == Some(s.bestScore)
    ensures Decimal.ParseInt(CsvFields(s)[5]) == Some(s.totalTimeSpent)
  {
    Decimal.ParseIntToString(s.testsTaken, "");
    Decimal.ParseIntToString(s.bestScore, "");
    Decimal.ParseIntToString(s.totalTimeSpent, "");
    assert Decimal.IntToString(s.testsTaken) + "" == CsvFields(s)[2];
    assert Decimal.IntToString(s.bestScore) + "" == CsvFields(s)[4];
    assert Decimal.IntToString(s.totalTimeSpent) + "" == CsvFields(s)[5];
  }

  // ---------------------------------------------------------------------------
  // Total time
  // ---------------------------------------------------------------------------

  /** The total time of all tests, in minutes, on the overview. */
  const TotalTimeSpent := 2840

  /** `Math.round(minutes / 60)`: the nearest whole hour, halves rounded up. */
  function DisplayedHours(minutes: int): (h: int)
    ensures 120 * h - 60 <= 2 * minutes < 120 * h + 60
  {
    JsMath.RoundDiv(minutes, 60)
  }

  /** The overview's 2840 minutes show as 47 hours. */
  lemma OverviewHours()
    ensures DisplayedHours(TotalTimeSpent) == 47
  {
  }
}
