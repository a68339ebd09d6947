# Testwize teacher pages in Dafny

Testwize is a Next.js web application. Teachers build multiple-choice, true/false and
short-answer tests with it, and browse the results of their students. This project models
the rules inside the teacher pages and the registration page, with the network, the browser
and the rendering cut away.

- **create-test** (`CreateTest`): the test builder. It is a class that holds the test's
  settings, the list of added questions and the draft question, and it has one method per
  handler:
  - the draft editor, where options cannot go below three and the chosen answer is cleared
    when its option is deleted;
  - appending and removing questions;
  - the checks made before saving;
  - the total of the points.
- **analytics** (`Analytics`): derived from constant data and the search term:
  - the student search;
  - the top five by average;
  - the colour band of a score;
  - the CSV export;
  - the hours shown for the total time.
- **dashboard** (`Dashboard`):
  - the join of the fetched tests with their results and question data;
  - the overview totals, the average score and the pass rate;
  - the status colours;
  - deleting a test from the page's list (class `DashboardPage`).
- **results** (`Results`): the title search, the status colours and the completion
  percentage.
- **question banks** (`QuestionBanks`): the title search and the confirmed delete on the
  page's list (class `QuestionBanksPage`).
- **register** (`Register`):
  - the form;
  - the two ordered password checks;
  - the user record that is built;
  - what a sign-up sends and stores (class `RegisterPage`).

Shared modules hold the JavaScript behaviour the pages rely on:

- `Lists`: `filter`, `find` and `splice` on a copy.
- `Text`: `trim`, `toLowerCase`, `includes`, `join`, and `split` as the inverse of `join`.
- `Decimal`: `toString`, `toFixed(1)` of tenths, and `Number.parseInt` with its `|| fallback`.
- `JsMath`: `Math.round` of a quotient, and the `NaN`/`Infinity` of a division by zero.
- `Search`: the case-insensitive search box shared by three pages.

Behaviour of the code that a reader might not expect, modelled as written:

- A multiple-choice `correctAnswer` is never checked to be a valid index into the options
  (`CreateTest.IndexNotBoundsChecked`). After an earlier option is deleted, the stored index
  is not shifted either (`CreateTest.DeleteBeforeAnswer`).
- Every question keeps one `correctAnswer` of any kind. So `Question` is tagged by type, but
  `Answer` is a union of an index, a flag and a sample text, exactly as stored.
- The pages hold no student test session (timer, navigation, scoring); it is not modelled.

## Model

| member | source | states |
|---|---|---|
| Lists.FilterMembers | app/teacher/create-test/page.tsx:128 | `filter` keeps exactly the elements its test accepts, each as many times as it occurs |
| Lists.Filter | app/teacher/create-test/page.tsx:128 | `filter` never returns more elements than it is given, and every one it returns passes its test |
| Lists.FilterIsSubsequence | app/teacher/create-test/page.tsx:128 | `filter` keeps its survivors in their original relative order |
| Lists.FilterAppend | app/teacher/create-test/page.tsx:128 | filtering a concatenation is concatenating the filtered parts |
| Lists.FilterAll | app/teacher/analytics/page.tsx:137-139 | a filter that accepts everything returns its input unchanged |
| Lists.FilterShorter | app/teacher/create-test/page.tsx:128 | a filter that rejects some element returns a strictly shorter list |
| Lists.KeyFiltersAppend | app/teacher/create-test/page.tsx:125-130 | removing and selecting by id both distribute over concatenation |
| Lists.WithoutKeyProperties | app/teacher/create-test/page.tsx:125-130 | removal by id keeps exactly the elements with another id, in order; an absent id changes nothing; a present id shortens the list |
| Lists.WithoutKey | app/teacher/create-test/page.tsx:128 | removal by id returns no element with that id, and never more elements than given |
| Lists.WithKey | app/teacher/dashboard/page.tsx:52-53 | selection by id returns only elements with that id, never more than given |
| Lists.FirstIndex | app/teacher/dashboard/page.tsx:52-53 | the index found satisfies the test and no earlier element does; `None` only when no element does |
| Lists.Find | app/teacher/dashboard/page.tsx:52-53 | `find` returns the first satisfying element, and `undefined` exactly when none satisfies |
| Lists.FindAt | app/teacher/dashboard/page.tsx:52-53 | the element at the first position satisfying the predicate is exactly what `find` returns |
| Lists.SpliceStart | app/teacher/create-test/page.tsx:148 | where `splice` starts: the index itself when in range, counted from the end when negative, clamped to the length |
| Lists.RemoveAt | app/teacher/create-test/page.tsx:146-148 | `splice(i, 1)` on a copy removes exactly position i and shifts the later elements down by one; an index past the end removes nothing |
| Text.TrimStart | app/teacher/create-test/page.tsx:71 | the result is a suffix that starts with a non-space, and everything dropped is white space |
| Text.TrimEnd | app/teacher/create-test/page.tsx:71 | the result is a prefix that ends with a non-space, and everything dropped is white space |
| Text.Trim | app/teacher/create-test/page.tsx:71 | the result is a slice `s[i..j]` with only white space before `i` and from `j` on, and it neither starts nor ends with white space |
| Text.BlankIffTrimEmpty | app/teacher/create-test/page.tsx:71 | the blank test used for `!s.trim()` (no character left after the leading white space) holds exactly when `trim` gives the empty string |
| Text.BlankIffAllWhitespace | app/teacher/create-test/page.tsx:71 | a text trims to empty exactly when every character is white space |
| Text.Lower | app/teacher/analytics/page.tsx:138 | `toLowerCase` keeps the length, turns each upper-case letter into the letter 0x20 code points up, leaves no upper-case letter and changes no other character |
| Text.LowerIdempotent | app/teacher/analytics/page.tsx:138 | lower-casing twice is lower-casing once |
| Text.Contains | app/teacher/analytics/page.tsx:138 | `includes` never finds a term longer than the text |
| Text.ContainsIffOccurs | app/teacher/analytics/page.tsx:138 | `includes` holds exactly when the term occurs at some position; the empty term is always included |
| Text.MatchesTerm | app/teacher/analytics/page.tsx:138 | a text matches only terms no longer than itself |
| Text.EmptyTermMatches | app/teacher/analytics/page.tsx:138 | every text matches the empty search term |
| Text.Join | app/teacher/analytics/page.tsx:174-175 | joining no pieces gives the empty text |
| Text.JoinStartsWith | app/teacher/analytics/page.tsx:174-175 | a join begins with its first piece, and one piece joins to itself |
| Text.Split | app/teacher/analytics/page.tsx:174-175 | `split` returns at least one piece, and no piece holds the separator |
| Text.SplitPiece | app/teacher/analytics/page.tsx:174-175 | a piece free of the separator splits off as one field |
| Text.SplitJoin | app/teacher/analytics/page.tsx:174-175 | splitting a join gives back its pieces when no piece contains the separator |
| Text.JoinAvoids | app/teacher/analytics/page.tsx:174-175 | a character other than the separator appears in a join only if some piece holds it |
| Text.Utf16Length | app/auth/register/page.tsx:42 | `length` counts UTF-16 units: between one and two per character |
| Decimal.NatToString | app/teacher/analytics/page.tsx:166 | the decimal digits of a natural number, nonempty, with no leading zero |
| Decimal.NatToStringValue | app/teacher/analytics/page.tsx:166 | the digits written denote the number |
| Decimal.IntToString | app/teacher/analytics/page.tsx:166 | `toString` of an integer uses only digits and a minus sign |
| Decimal.TenthsToString | app/teacher/analytics/page.tsx:168 | `toFixed(1)` of a score in tenths: digits, an optional sign, and exactly one digit after the point |
| Decimal.TenthsToStringValue | app/teacher/analytics/page.tsx:168 | the `toFixed(1)` text denotes t/10: a minus sign exactly for negative t, the digits before the point worth the whole part of the magnitude of t / 10, and the last digit its tenths |
| Decimal.ParseUnsigned | app/teacher/create-test/page.tsx:328 | `NaN` exactly when no digit follows the optional `0x` prefix |
| Decimal.ParseInt | app/teacher/create-test/page.tsx:328 | after leading white space and one optional sign, `NaN` exactly when no digit follows; the magnitude is the digits' value; after a minus sign the result is that value negated, and nothing else makes it negative |
| Decimal.UnsignedToString | app/teacher/create-test/page.tsx:328 | reading the digits of `m` followed by a non-digit gives `m` back |
| Decimal.DigitRunStops | app/teacher/create-test/page.tsx:328 | the digit run of `parseInt` ends at the first non-digit |
| Decimal.ParseIntToString | app/teacher/create-test/page.tsx:328 | `parseInt` reads back any integer written by `toString`, whatever non-digit follows |
| Decimal.ParseIntOr | app/teacher/create-test/page.tsx:328 | `parseInt(s) \|\| fallback` never yields 0 when the fallback is nonzero |
| Decimal.ParseIntOrToString | app/teacher/create-test/page.tsx:465 | typing a number gives that number, and typing 0 gives the fallback |
| JsMath.RoundDiv | app/teacher/analytics/page.tsx:274 | `Math.round(p / q)`: within half a unit of the quotient, halves rounded up |
| JsMath.RoundDivUnique | app/teacher/analytics/page.tsx:274 | that integer is the only one within those bounds |
| JsMath.RoundDivMonotone | app/teacher/analytics/page.tsx:274 | rounding a quotient is monotone in the dividend |
| JsMath.RoundedPercent | app/teacher/results/page.tsx:110 | `Math.round(p / q * 100)`: a rounded percentage for nonzero q; `Infinity`, `-Infinity` or `NaN` for q = 0 |
| JsMath.PercentInRange | app/teacher/results/page.tsx:110 | a part of a positive whole rounds to a percentage in [0, 100] |
| Search.Matching | app/teacher/analytics/page.tsx:137-139 | the search keeps exactly the items whose lower-cased text contains the lower-cased term, in their order and each as often as it occurs; the empty term keeps all; the result is empty exactly when nothing matches |
| CreateTest.CheckDraft | app/teacher/create-test/page.tsx:71-93 | rejection for a blank-after-trim text comes first; then, for multiple choice only, fewer than three options or no answer; both directions |
| CreateTest.ToQuestion | app/teacher/create-test/page.tsx:95-103 | stored question: the given id, untrimmed text, type-matching variant, options only for multiple choice, a falsy answer replaced by index 0, zero points replaced by 1 |
| CreateTest.FalseStoredAsZero | app/teacher/create-test/page.tsx:100 | a true/false answer of `false` is stored as index 0 |
| CreateTest.IndexNotBoundsChecked | app/teacher/create-test/page.tsx:80-93 | any chosen index passes the multiple-choice check, even past the last option |
| CreateTest.TotalPoints | app/teacher/create-test/page.tsx:368 | with no negative points the total is nonnegative and at least each question's points; with a point or more each, at least the number of questions |
| CreateTest.TotalPointsAppend | app/teacher/create-test/page.tsx:368 | the total points of two lists added together is the sum of their totals |
| CreateTest.TotalPointsSplit | app/teacher/create-test/page.tsx:125-130 | the total equals the total after removing an id plus the points of the removed questions |
| CreateTest.AddedLast | app/teacher/create-test/page.tsx:105-108 | an accepted add grows the list by one, keeps the earlier questions, puts the new one last and adds its points to the total |
| CreateTest.DeleteBeforeAnswer | app/teacher/create-test/page.tsx:145-153 | after deleting an option before the chosen one, the unshifted answer names the following option, or no option at all |
| CreateTest.CheckSave | app/teacher/create-test/page.tsx:162-179 | a blank-after-trim title is rejected first, then an empty question list; otherwise the save passes; each both ways |
| CreateTest.TestBuilder.constructor | app/teacher/create-test/page.tsx:38-53 | empty settings, a 30-minute duration, no questions, and the blank multiple-choice draft |
| CreateTest.TestBuilder.SetTitle | app/teacher/create-test/page.tsx:287 | the title takes the value and nothing else changes |
| CreateTest.TestBuilder.SetDescription | app/teacher/create-test/page.tsx:297 | the description takes the value and nothing else changes |
| CreateTest.TestBuilder.SetSubject | app/teacher/create-test/page.tsx:307 | the subject takes the value and nothing else changes |
| CreateTest.TestBuilder.SetDuration | app/teacher/create-test/page.tsx:327-328 | the duration becomes `parseInt(value) \|\| 30`; nothing else changes |
| CreateTest.TestBuilder.SetInstructions | app/teacher/create-test/page.tsx:340 | the instructions take the value and nothing else changes |
| CreateTest.TestBuilder.SetQuestionType | app/teacher/create-test/page.tsx:448 | only the draft's type changes; the answer and options stay |
| CreateTest.TestBuilder.SetPoints | app/teacher/create-test/page.tsx:465 | the draft's points become `parseInt(value) \|\| 1` |
| CreateTest.TestBuilder.SetQuestionText | app/teacher/create-test/page.tsx:476 | only the draft's text changes |
| CreateTest.TestBuilder.ChooseOption | app/teacher/create-test/page.tsx:512 | the draft's answer becomes that option's index |
| CreateTest.TestBuilder.ChooseTrueFalse | app/teacher/create-test/page.tsx:553 | the draft's answer becomes the flag `value == "true"` |
| CreateTest.TestBuilder.SetSampleAnswer | app/teacher/create-test/page.tsx:572 | the draft's answer becomes the sample text |
| CreateTest.TestBuilder.UpdateQuestionOption | app/teacher/create-test/page.tsx:139-143 | exactly option `index` takes the value; the count stays |
| CreateTest.TestBuilder.AddOption | app/teacher/create-test/page.tsx:533-537 | an empty option is appended |
| CreateTest.TestBuilder.DeleteQuestionOption | app/teacher/create-test/page.tsx:145-160 | with more than three options, option `index` is spliced out and an answer equal to `index` is cleared, other answers unshifted; with three or fewer nothing changes |
| CreateTest.TestBuilder.AddQuestion | app/teacher/create-test/page.tsx:70-123 | a rejected draft changes nothing; an accepted one appends its stored question and resets the draft; the settings never change |
| CreateTest.TestBuilder.RemoveQuestion | app/teacher/create-test/page.tsx:125-130 | the questions become those with another id, in order; the draft and settings stay |
| CreateTest.TestBuilder.SaveTest | app/teacher/create-test/page.tsx:162-189 | the outcome is the save check on the current title and questions, whatever the status |
| Analytics.FilteredStudents | app/teacher/analytics/page.tsx:137-139 | exactly the students whose name contains the term ignoring case, in their order and as often as listed; all of them for the empty term; empty exactly when no name matches |
| Analytics.Insert | app/teacher/analytics/page.tsx:142 | inserting into a list sorted by average keeps it sorted and adds exactly one element |
| Analytics.SortByAverage | app/teacher/analytics/page.tsx:142 | the sorted copy is non-increasing by average and a permutation of the students |
| Analytics.PrefixOfSorted | app/teacher/analytics/page.tsx:142 | a prefix of the sorted copy is sorted, drawn from it and no lower than the rest |
| Analytics.TopPerformers | app/teacher/analytics/page.tsx:142 | five students, or all when there are fewer; best first; drawn from all students; nobody left out beats anybody shown |
| Analytics.ScoreBand | app/teacher/analytics/page.tsx:144-150 | each score falls in exactly one band: at least 90, [80, 90), [70, 80), [60, 70), below 60 |
| Analytics.ScoreBandMonotone | app/teacher/analytics/page.tsx:144-150 | a higher score never gets a lower band |
| Analytics.BandClassesDistinct | app/teacher/analytics/page.tsx:144-150 | different bands get different classes |
| Analytics.ClassesColourInitial | app/teacher/analytics/page.tsx:144-150 | right after `text-`, the classes of a band carry the initial of its colour (green, blue, yellow, orange, red) |
| Analytics.ScoreColor | app/teacher/analytics/page.tsx:144-150 | green from an average of 90.0, blue from 80.0, yellow from 70.0, orange from 60.0, red below, the five ranges of tenths cover every average, and with `BandClassesDistinct` the colour tells the range |
| Analytics.CsvFields | app/teacher/analytics/page.tsx:164-172 | seven fields in header order; name, class and date verbatim; numeric fields without commas or line breaks |
| Analytics.CsvRow | app/teacher/analytics/page.tsx:174 | a row holds a line break only if a field does, and comma-free fields split back out of it |
| Analytics.CsvLines | app/teacher/analytics/page.tsx:154-173 | the header line, then one row per student in order |
| Analytics.ExportCsv | app/teacher/analytics/page.tsx:154-175 | the export starts with the header line and is only that line when no student matches |
| Analytics.RowColumns | app/teacher/analytics/page.tsx:164-175 | a row whose text fields hold no comma splits back into its seven fields |
| Analytics.CommaInNameAddsColumn | app/teacher/analytics/page.tsx:164-175 | fields are not quoted: a comma in a name gives eight columns |
| Analytics.ExportLines | app/teacher/analytics/page.tsx:154-175 | with no line break in any name, class or date (commas allowed), the export splits on line breaks into the header and one row per searched student |
| Analytics.NumbersReadBack | app/teacher/analytics/page.tsx:166-171 | the tests-taken, best-score and time columns parse back to the numbers written |
| Analytics.DisplayedHours | app/teacher/analytics/page.tsx:274 | the hours are the minutes over 60 rounded to the nearest whole, halves up |
| Analytics.OverviewHours | app/teacher/analytics/page.tsx:274 | the 2840 minutes of the overview show as 47 hours |
| Dashboard.MergeOne | app/teacher/dashboard/page.tsx:51-62 | share link is origin + "/test/" + id; counts from the first result of the test, questions from its first data item; 0 and [] for absent matches or fields |
| Dashboard.Merge | app/teacher/dashboard/page.tsx:51-62 | one merged entry per test, same length and order |
| Dashboard.StatusColor | app/teacher/dashboard/page.tsx:96-107 | active is green, draft yellow, and inactive gets the same grey as any other status |
| Dashboard.SumAverages | app/teacher/dashboard/page.tsx:139 | a sum of averages none of which is negative is not negative |
| Dashboard.AverageScore | app/teacher/dashboard/page.tsx:136-142 | 0 for no tests, otherwise the mean of the per-test averages |
| Dashboard.AveragesBetween | app/teacher/dashboard/page.tsx:136-142 | averages in [0, 100] sum to between 0 and 100 times their count |
| Dashboard.AverageInRange | app/teacher/dashboard/page.tsx:136-142 | when every average is a percentage, so is the mean |
| Dashboard.PassRate | app/teacher/dashboard/page.tsx:145-151 | 0 when no student is counted, otherwise completed over students times 100 |
| Dashboard.SumBy | app/teacher/dashboard/page.tsx:145-149 | a `reduce` sum with no negative term is not negative |
| Dashboard.SumByAppend | app/teacher/dashboard/page.tsx:145-149 | the sum over two lists together is the sum of their sums |
| Dashboard.SumBetween | app/teacher/dashboard/page.tsx:145-149 | summed values between 0 and a bound total between 0 and the summed bounds |
| Dashboard.PassRateInRange | app/teacher/dashboard/page.tsx:145-151 | when no test has more completions than students, the pass rate lies in [0, 100] |
| Dashboard.TotalResponses | app/teacher/dashboard/page.tsx:196 | with no negative counts the total is nonnegative; with no count at all it is 0 |
| Dashboard.ResponsesBound | app/teacher/dashboard/page.tsx:196 | with no negative counts, the responses total is at least each test's count |
| Dashboard.ActiveCount | app/teacher/dashboard/page.tsx:185 | the active count is at most the number of tests, equals it exactly when every test is active, and is 0 exactly when none is |
| Dashboard.ActiveCountAppend | app/teacher/dashboard/page.tsx:185 | the active count of two lists together is the sum of their counts |
| Dashboard.DeleteKeepsOthers | app/teacher/dashboard/page.tsx:119 | the list after a delete keeps exactly the other tests, in order; an absent id changes nothing |
| Dashboard.DashboardPage.constructor | app/teacher/dashboard/page.tsx:16-18 | no tests, no delete in flight, not loading |
| Dashboard.DashboardPage.LoadTests | app/teacher/dashboard/page.tsx:34-75 | on success the tests become the merged list, replacing the current one outright, so a delete finished meanwhile is undone; on failure they stay; loading ends either way |
| Dashboard.DashboardPage.StartDelete | app/teacher/dashboard/page.tsx:109-111 | unconfirmed, nothing changes; confirmed, the test's id is in flight, which disables its delete button (lines 291-294), and the list is untouched |
| Dashboard.DashboardPage.FinishDelete | app/teacher/dashboard/page.tsx:112-133 | when the requests resolve, whatever their status, the test's entries leave the current list and the rest keep their order; a rejected request keeps the list; the in-flight id is cleared whichever test it names |
| Results.FilteredResults | app/teacher/results/page.tsx:48 | exactly the results whose title contains the term ignoring case, in their order and as often as listed; all for the empty term; empty, so the "no results" message shows, exactly when no title matches |
| Results.StatusColor | app/teacher/results/page.tsx:50-59 | completed is green, active blue, everything else grey |
| Results.Completion | app/teacher/results/page.tsx:110 | finite exactly when there are students, and then the whole percentage nearest the completed share |
| Results.CompletionInRange | app/teacher/results/page.tsx:110 | completion is a whole percentage in [0, 100] when 0 <= completed <= students, and 100 when all completed |
| Results.CompletionWithoutStudents | app/teacher/results/page.tsx:110 | with no students the unguarded division shows NaN, or Infinity when some completed |
| Results.ShownCompletion | app/teacher/results/page.tsx:110 | the three listed results show 88%, 100% and 50% |
| QuestionBanks.QuestionBanksPage.constructor | app/teacher/question-banks/page.tsx:17-45 | the page starts with the three listed banks |
| QuestionBanks.QuestionBanksPage.Filtered | app/teacher/question-banks/page.tsx:58-60 | exactly the banks whose title contains the term ignoring case, in their order and as often as listed; all for the empty term; empty, so the "no banks" message shows, exactly when no title matches |
| QuestionBanks.QuestionBanksPage.DeleteById | app/teacher/question-banks/page.tsx:48-56 | unconfirmed, the list stays; confirmed, every bank with the id goes and the others keep their order |
| Register.WithField | app/auth/register/page.tsx:102-107 | the named input takes the value and the other four keep theirs |
| Register.Validate | app/auth/register/page.tsx:36-46 | a mismatch is reported first, even for a short password; otherwise fewer than 6 UTF-16 units gives the length message; both directions |
| Register.NewUser | app/auth/register/page.tsx:50-59 | the record copies name, email, password and school, and fixes role teacher, plan free and no tests |
| Register.ShortPasswordRejected | app/auth/register/page.tsx:42-46 | a password of fewer than three characters never passes |
| Register.RegisterPage.constructor | app/auth/register/page.tsx:18-27 | an empty form, no error, not loading, nothing sent or stored |
| Register.RegisterPage.Change | app/auth/register/page.tsx:102-107 | only the form changes, by the named input |
| Register.RegisterPage.HandleSubmit | app/auth/register/page.tsx:30-79 | a failed check shows its message and sends and stores nothing; a valid form is sent once; on acceptance the user and the flag are stored; on refusal the failure message shows and nothing is stored |

## Left out

- Network I/O:
  - the fetches of `fetchTests`, the DELETE requests of `handleDeleteTest` and `createUser`
    in `api/api.ts`;
  - each enters the model only as a flag: whether `fetchTests` got three `ok` answers,
    whether the three DELETE requests resolved (any HTTP status) rather than rejected, and
    whether `createUser` succeeded.
- Browser storage:
  - the authentication checks and redirects on page load;
  - the JSON serialisation of stored users;
  - register's storage writes are kept only as the page's `storedUser` and
    `storedAuthenticated` fields.
- Rendering:
  - JSX, toasts, router redirects and `setTimeout` delays;
  - the clipboard copy;
  - the CSV `Blob` and download;
  - the AI chat stub, file uploads and `FileReader`;
  - the Google sign-up stub.
- `Date.now()` question ids and `new Date().toISOString()` dates are parameters. In the source,
  two questions added in the same millisecond share an id, and `RemoveQuestion` then removes
  both.
- CreateTest.TestBuilder.UpdateQuestionOption: requires an existing index. Its only caller
  passes the index of a rendered option. In JavaScript, a write past the end would leave
  holes in the array.
- CreateTest.TestBuilder.DeleteQuestionOption: the source always splices at the index of a
  rendered option. So the negative-index case of `Lists.RemoveAt` is modelled, but no caller
  reaches it.
- Register.RegisterPage.HandleSubmit: the browser's own form checks, which stop a submit
  before `handleSubmit` runs, are not modelled: `required` on the full name, email,
  password and confirmation (app/auth/register/page.tsx:199, 216, 249, 266) and
  `type="email"` (app/auth/register/page.tsx:212). The model accepts, for example, an empty
  name or an email without `@`.
- Decimal.ParseInt: integers are unbounded, so precision loss beyond 2^53 is not modelled.
- Decimal.IntToString: `toString` switches to exponent notation (`1e+21`) from 10^21 on in
  magnitude; the model writes every integer in plain digits.
- Text.Lower: lower-cases ASCII and Latin-1 letters only. Other Unicode case mappings are
  not modelled.
- Analytics.SortByAverage: the sort is stable, as the language standard has required since
  2019. Stability itself is not stated as a contract.
- JsMath.RoundedPercent: computes with exact rationals. Floating point can round some
  quotients differently: for instance 29/200 * 100 evaluates just below 14.5.
- Dashboard.DashboardPage.LoadTests: `fetchTests` is one step, so its `isLoading` flag is
  never seen set between calls. Its answer is a parameter, so a fetch that started before a
  delete and finishes after it is a `LoadTests` call, after `FinishDelete`, whose list still
  holds the deleted test.
- Dashboard.AverageScore: works on reals. The `toFixed(1)` formatting of the average and of
  the pass rate is not modelled, nor a `NaN` average, which `|| 0` would turn into 0.
- Analytics.StudentResult: holds the average in integer tenths. Every listed average has one
  decimal, so `toFixed(1)` is exact.
- The constant data of the analytics, dashboard-layout, marketing, login and profile pages
  is not modelled, except the overview's total time. The per-class table and the overview
  figures are only displayed. Results and question banks keep their constant lists.
