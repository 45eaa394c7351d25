# Dormitory record store (달구벌고등학교 기숙사 관리프로그램), modelled in Dafny

The program in `app.py` is a Streamlit front end over one Excel workbook with four
tables: Students, Outings (외출/외박 requests), Scores (상점/벌점 entries) and
Payments (dormitory fees). Each form handler loads all four tables, changes them and
saves all four back. This project models that record store and its rules:

- `Seqs` (`seqs.dfy`) holds the generic sequence machinery the tables need:
  - row selection with a mask, which pandas writes `df[mask]`;
  - first matching position;
  - plain and masked sums of an integer column;
  - uniqueness of a key column.
- `Records` (`records.dfy`) defines the four row types and the fixed vocabularies the forms offer.
- `Lookups` (`lookups.dfy`) models the shared helpers:
  - `next_id`, `name_by_sid` and `get_student_by_studentno`;
  - the row the edit form works on;
  - `login_student`.
- `Report` (`report.dfy`) models the merit/demerit summary sheet of `make_report`
  (상벌점_요약) and the totals on a student's own score tab.
- `Store` (`store.dfy`) holds the four tables as the fields of the class `DormStore`.
  Each handler body is one method on it:
  - register, edit and delete a student;
  - the admin's and the student's outing forms;
  - the score and payment forms;
  - cancelling an outing.

  Beside the methods sit the pure parts those handlers use and lemmas about them.

The store's invariants are:

- `Valid`: IDs are unique in every table, and the form-chosen columns hold the form's
  choices (for example, a 벌점 row never carries positive Points and an Amount is never
  negative).
- `Joined`: every outing, score and payment row names an existing student.

Every handler method states its whole new state in terms of the old one, and which of
the two invariants it preserves. The two removal steps of the delete handler
(`RemoveStudentRows`, `RemoveRowsOf`) and the `Load` constructor state only the new
tables.

## Model

| member | source | states |
|---|---|---|
| `Lookups.MaxKey` | app.py:49 | the largest ID of a non-empty table: no ID exceeds it and some row carries it |
| `Lookups.NextId` | app.py:46-49 | 1 for an empty table; otherwise greater than every ID present and one more than an ID that is present (the maximum plus one, not the row count plus one) |
| `Lookups.NextIdKeepsDistinct` | app.py:46-49 | a row appended with the next ID keeps the table's IDs unique |
| `Lookups.NextIdAfterGaps` | app.py:46-49 | IDs 1, 3, 5 give 6, not 4 |
| `Lookups.GetStudentByStudentNo` | app.py:55-57 | exactly the rows whose StudentNo equals the given string, each as often as in the table |
| `Lookups.GetStudentByStudentNoAppend` | app.py:55-57 | the selection keeps table order: a row appended to the table comes after every row selected before it, and only when its StudentNo matches |
| `Lookups.FindStudentNo` | app.py:185-187 | the position of the first row with that StudentNo, which heads the selection; none exactly when the selection is empty |
| `Lookups.NameBySid` | app.py:51-53 | the row's Name when exactly one row has the ID, and "" when no row or several rows have it |
| `Lookups.MissingIdHasEmptyName` | app.py:51-53 | an ID no row carries joins to "" |
| `Lookups.DeletedIdHasEmptyName` | app.py:51-53 | after the rows with an ID are removed, that ID joins to "" |
| `Lookups.LoginStudent` | app.py:108-113 | succeeds exactly when one row has the StudentNo and its Password equals the input, and then gives that row's ID |
| `Lookups.LoginWithUniqueNumbers` | app.py:108-113 | with unique StudentNos, login with a present StudentNo succeeds exactly when the Password matches |
| `Lookups.LoginFailsOnSharedNumber` | app.py:111 | a StudentNo held by two rows can never log in |
| `Seqs.Filter` | app.py:228-232 | a mask selection holds exactly the rows of the table that satisfy the mask, and no more rows than the table |
| `Seqs.FilterCounts` | app.py:228-232 | a mask selection keeps every copy of a kept row and drops every copy of the others |
| `Seqs.FilterSingle` | app.py:52-53 | a selection has one row exactly when one position satisfies the mask, and then it is that position's row |
| `Seqs.DistinctByFilter` | app.py:228-232 | removing rows keeps a key column unique |
| `Seqs.FirstIndex` | app.py:382-384 | the first position satisfying a mask, with no earlier one; none when no position does |
| `Seqs.SumSplitsBySign` | app.py:90-92 | the positive part plus the negative part of a column is its sum |
| `Seqs.SumPositiveNonNegative` | app.py:90 | the sum of the positive Points is never negative |
| `Seqs.SumNegativeNonPositive` | app.py:91 | the sum of the negative Points is never positive |
| `Report.Tally` | app.py:90-93 | the totals of a group: merit at least 0, demerit at most 0, net equal to merit plus demerit |
| `Report.TallyAppend` | app.py:90-92 | the totals of two groups together are the sums of their totals |
| `Report.ScoreSheet` | app.py:75-78 | one line per score row, in order, holding the joined Name and the Points |
| `Report.NamesOfLines` | app.py:90-93 | a name is on the sheet exactly when some line has it |
| `Report.PointsNamed` | app.py:90-92 | a name's group is empty exactly when the name is not on the sheet |
| `Report.Summarize` | app.py:90-93 | one entry per name on the sheet, each with consistent totals |
| `Report.SummarizeAppend` | app.py:90-93 | one more line adds its points to its own name's entry (creating it with 0 merit and 0 demerit when new) and leaves every other entry unchanged |
| `Report.ScoreSummary` | app.py:86-93 | empty for an empty Scores table; its names are exactly the joined names of the score rows; every entry has merit at least 0, demerit at most 0 and net equal to merit plus demerit |
| `Report.SummaryExample` | app.py:86-93 | Kim +5 and -2, Lee -1 give Kim (5, -2, 3) and Lee (0, -1, -1) |
| `Report.OrphansUnderEmptyName` | app.py:76 | a score row whose student is gone is summarised under the name "" |
| `Report.StudentPoints` | app.py:396 | a student's list of points is empty exactly when the student has no score rows |
| `Report.StudentTotals` | app.py:396-403 | none when the student has no score rows; otherwise merit at least 0, demerit at most 0, net equal to merit plus demerit |
| `Report.GroupIsStudentPoints` | app.py:90-92 | when a name belongs to exactly one student's rows, that name's group is that student's points |
| `Report.StudentTotalsMatchSummary` | app.py:401-403 | for a student whose ID and Name are each unique, the score tab's totals are the report's entry for the student's name |
| `Store.CheckNewStudent` | app.py:156-159 | refuses a registration when Name, StudentNo or Password is empty; otherwise refuses it exactly when some row already has the StudentNo; otherwise accepts it |
| `Store.NewStudent` | app.py:161-165 | the new row's ID exceeds every existing ID, and the row holds the entered columns and Password |
| `Store.RegisteredStudentCanLogIn` | app.py:156-166 | with unique StudentNos, a student just registered logs in with the new StudentNo and Password and gets the new ID |
| `Store.ScorePoints` | app.py:285 | a 상점 stores the entered value unchanged; anything else stores the value or its negation, and never a positive one |
| `Store.ScorePointsExamples` | app.py:285 | 벌점 3 and 벌점 -3 both store -3; 상점 -3 stays -3 |
| `Store.CancelChoices` | app.py:368-375 | the offered rows are exactly the student's own outings with Status 신청 or 대기 |
| `Store.CancelHitsChosenRow` | app.py:375-384 | with unique Outing IDs, the row the cancel button changes is the chosen row, so it is the student's own and 신청 or 대기 |
| `Store.IdsAfterDelete` | app.py:228 | removing the rows with an ID removes exactly that ID from the table's IDs |
| `Store.CascadeKeepsLinked` | app.py:228-232 | after a cascading delete every remaining row still names an existing student |
| `Store.PlainDeleteLeavesOrphans` | app.py:228 | right after a delete without cascade, the student's score rows name a missing ID, which joins to "" (until the ID is handed out again) |
| `Store.IdReusedAfterDelete` | app.py:46-49 | when the deleted student held the largest ID and the ID one below remains, the next registration receives the deleted ID, and that ID then joins to the new student's name |
| `Store.NextIdIsBound` | app.py:49 | a table whose IDs are all below a bound, one of them the bound minus one, hands out the bound next |
| `Store.NameOfAppended` | app.py:51-53 | a row appended with an ID no other row carries is the row that ID joins to |
| `Store.CascadeKeepsWellFormed` | app.py:229-232 | removing rows keeps every remaining row within the forms' choices |
| `Store.DeleteKeepsValid` | app.py:228-232 | a delete with or without cascade keeps IDs unique and rows within the forms' choices |
| `Store.DistinctByUpdateKeepsIds` | app.py:213-220 | editing a row without changing its ID keeps the IDs unique and the set of IDs the same |
| `Store.DormStore.constructor` | app.py:22-28 | a fresh workbook holds four empty tables, which are valid and joined |
| `Store.DormStore.Load` | app.py:30-37 | the store holds the four tables read from the workbook |
| `Store.DormStore.CreateStudent` | app.py:155-166 | the result is the registration check; a refused registration changes nothing; an accepted one appends exactly the new row with the next ID; the other tables are untouched; unique IDs, valid rows, joins and unique StudentNos are preserved |
| `Store.DormStore.UpdateStudent` | app.py:184-220 | the empty StudentNo is no selection and changes nothing; otherwise no row with the selected StudentNo gives NotFound and changes nothing; otherwise only the first row with that StudentNo changes: it keeps its ID, takes the form's columns, and takes the new Password only when one is entered; every other row and table is unchanged; validity and joins are preserved |
| `Store.DormStore.DeleteStudent` | app.py:184-232 | the empty StudentNo, or no row with the selected StudentNo, changes nothing; otherwise the rows with that row's ID are removed; with cascade, exactly the outing, score and payment rows with that StudentID are removed too; without it those tables are unchanged; validity is preserved, and joins are preserved with cascade |
| `Store.DormStore.RemoveStudentRows` | app.py:228 | the Students table loses exactly the rows with the ID; nothing else changes |
| `Store.DormStore.RemoveRowsOf` | app.py:229-232 | the other three tables lose exactly the rows with the StudentID; Students is unchanged |
| `Store.DormStore.AddOuting` | app.py:255-258 | exactly one outing row is appended with the next Outing ID and the chosen Status; the other tables are unchanged; validity and joins are preserved |
| `Store.DormStore.RequestOuting` | app.py:360-363 | exactly one outing row is appended with the next Outing ID and Status 신청; the other tables are unchanged; validity is preserved, and joins are preserved for a student still present |
| `Store.DormStore.AddScore` | app.py:284-288 | exactly one score row is appended with the next Score ID and the sign-normalised Points; the other tables are unchanged; validity and joins are preserved |
| `Store.DormStore.AddPayment` | app.py:316-320 | exactly one payment row is appended with the next Payment ID; the other tables are unchanged; validity and joins are preserved |
| `Store.DormStore.CancelOuting` | app.py:381-387 | the first row with the chosen ID gets Status 취소 and nothing else changes; with no such row nothing changes |

## Left out

- Excel persistence is left out: `_ensure_file`, `load_all`, `save_all` and the in-memory workbook export (app.py:22-44, app.py:95-102). The four tables are the store's fields, and a handler's load, change and save is one method call.
- The Streamlit screens, forms, tabs, session state, reruns and routing are left out (app.py:116-463). Only the handler bodies are modelled.
- The choices the widgets allow are written as preconditions:
  - a selectbox of existing student IDs;
  - the Type radio and the Status selectbox;
  - the 상점/벌점 radio;
  - the payment status radio, the method selectbox and the non-negative amount field.
- The cancel selection's label step is left out. It formats an ID into a label and parses it back (app.py:377-381); the model assumes the parse gives back the row's ID.
- The Korean column renaming and column selection of the views and exports are presentation only (app.py:62-84, app.py:172-177). One consequence is left out: the student export drops ID and Password (app.py:66).
- The report's other three sheets are left out: outings, scores and payments, each joined with names. Only the score join that feeds the summary is modelled, as `Report.ScoreSheet`.
- pandas coercion is left out: `fillna("")`, `to_numeric(errors="coerce")` (including the crash on a table whose IDs are all non-numeric) and `astype(str)`. IDs are integers and StudentNo is a string.
- Dates are opaque strings. ISO formatting and the date widgets' defaults are not modelled.
- The hard-coded admin login (app.py:12-13, app.py:105-106) is left out.
- Concurrent sessions overwriting each other's saves are left out.
- Ordering of the views and of the summary is left out:
  - the student's own lists are sorted by ID, highest first (app.py:368, 396);
  - the summary rows follow the order in which `pd.concat` joins the three groupings (app.py:93), which the model does not track.

  `Report.ScoreSummary` is therefore a map from name to totals. `Store.CancelChoices` keeps table order and is stated by membership.
- `Store.DormStore.UpdateStudent`: it does not preserve unique StudentNos, because the edit handler never re-checks them (app.py:212-220). An edit can give two rows the same StudentNo; that locks both students out (`Lookups.LoginFailsOnSharedNumber`) and leaves the edit and delete forms acting on the first of them.
- `Store.DormStore.UpdateStudent`: a student whose StudentNo an edit has blanked can never be edited again, because the empty StudentNo is no selection (app.py:184) and the edit form does not check the new StudentNo (app.py:193, 216).
- `Store.DormStore.DeleteStudent`: a student whose StudentNo an edit has blanked can never be deleted, for the same reason (app.py:184).
- `Store.DormStore.DeleteStudent`: its contract does not restate that unique StudentNos survive. That follows from its `students` postcondition by `Seqs.DistinctByFilter`.
- Behaviour of the code that the model keeps as written:
  - A cascading delete also removes the student's outings (app.py:230).
  - No handler edits an outing's Status other than the student's cancel.
  - A score entered as 상점 keeps whatever sign was typed (app.py:285).
  - IDs are reused. `next_id` is the largest ID plus one (app.py:49), so deleting the row with the largest ID frees that ID for the next row. After a delete without cascade, the deleted student's outing, score and payment rows then belong to the newly registered student (`Store.IdReusedAfterDelete`).
