# PyCor grading engine

PyCor grades spreadsheet exercises that students send in by mail. A
lecturer's "corrector" workbook holds, per exercise, the rows of an answer
key: a variable name, a formula that depends on the student's
matriculation number and a set of dummy values, and a relative and an
absolute tolerance. A student fills in the matching rows of a copy and
mails it back. PyCor then does the following:

- it recomputes the key for that student;
- it compares every typed value with the expected one;
- it records a percentage per exercise in a bounded record of attempts;
- it answers with results, passed, blocked and congratulation mails.

The repository holds three generations of this logic, and the model
covers all three, each as a variant of its own:

- the current `pycor` package;
- the older `src` package;
- the first front end, a set of Python 2 scripts that drive the
  spreadsheet program.

What the model covers:

- **Cell values** (`Cells`). A cell is a tagged value: empty, a float
  with the text `str()` gives for it, an int, a text, a date, or any other
  object. The Python conversions on cells (`str`, `int`, `float`,
  truthiness) are functions with explicit error results, and so is
  Python 2's order between cells of different types.
- **The comparator** (`Comparator`). This is `switch_tolerance` and
  `compare` of `pycor`, the `src` variant, and the single-tolerance
  Python 2 `compare`.
- **The attempt records.**
  - `Attempts` holds the value-level record functions.
  - `Store` is the class `AttemptStore`, which implements `get_stats`
    and `update_stats`. It keeps the block records as a map from
    (student, exercise) to sequences, and the two logs as sequences.
    `WriteBlock` copies one record into an array and writes the score
    into it in place.
  - `Verification` is the first generation's store: `search_zero`,
    `is_blocked`, `is_passed`, `update_stats` and `check_final`. It also
    holds `correct_Teil`, `check_MNvalid` and `count_different`.
- **The worksheet scans.**
  - `Worksheet` covers `set_exercise_rows` of both packages.
  - `LegacySheet` covers the first generation's Teil scans,
    `check_allNone`, `exercise_check_submitted` and `corrector_checkout`.
- **The corrector readers.**
  - `CorrectorSheet` covers the current `Corrector.__init__` validation
    and `generate_solutions`.
  - `SrcCorrector` covers `ExcelCorrector.read_data`,
    `ExcelStudent.read_data`, `read_corrector`, `from_subject_folder` and
    the src `generate_solutions`.
- **The correction loops.**
  - `Correction` covers the per-submission loop of `main` in `pycor` and
    `src`. It is an imperative loop over the store, proved against a
    fold of one pure step per exercise.
  - `LegacyCorrection` covers the first generation's `correction`.
- **The mail routing.**
  - `Mail` covers `_encode_name`, `_filter`, `filter_files` and the
    routing of `check_inbox`.
  - `SrcMail` covers the older `check_inbox` and the src
    `choose_server`.
  - `LegacyMail` covers `choose_server`, `verify` and
    `check_single_att`.
  - `LegacyResults` covers the row building of
    `generatehtmlmsg_Results`.
- **The pause of the main loop** (`Scheduler`).

Python's floats are modelled as `real`. Integers are unbounded. Text is
`seq<char>`. Everything the source reads from outside becomes a
parameter:

- the clock;
- the saved corrector state;
- the spreadsheet recomputation;
- the download and the login;
- the decoded header.

Quirks of the source are kept as written, for example:

- 0 means both "unused" and "scored 0 %";
- the erroneous list is 1-based while the other lists are 0-based;
- `get_stats` writes its resize back;
- the codename's `.xlsx` is removed in a single pass;
- the first generation undercounts `TotalTeils`;
- the first generation grades an exercise again after a first 100,
  because its one-line history cannot be read back with `len`;
- the dummy-count check tests the default value, not the parsed one.

## Model

| member | source | states |
|---|---|---|
| Text.ParseIntExtends | pycor/excel.py:433 | every text Python 2's int() reads, Python 3's int() reads to the same value |
| Text.ParseIntUnderscores | src/excel.py:121 | Python 3's int() reads "1_000" as 1000, which Python 2 refuses; a doubled or leading underscore is refused by both |
| Cells.ToInt2 | excel_functions.py:240 | Python 2's int() of a cell: where it succeeds, Python 3's int() gives the same value |
| Cells.TextCmpAntisymmetric | excel_functions.py:519-523 | unicode order is antisymmetric and ties only equal texts |
| Cells.Py2OrderFacts | excel_functions.py:519-523 | Python 2 order is antisymmetric, ties texts only when equal, orders numbers by value, and puts None below and texts above every number |
| Comparator.SwitchTolerance | pycor/__init__.py:12-18 | returns its two arguments, ascending |
| Comparator.IntExpectedNeverMatches | pycor/__init__.py:46-85 | an int expected value is never matched, not even by itself, while the same value as a float matches itself under any numeric or empty tolerances |
| Comparator.CompareTextEquivalence | pycor/__init__.py:42-43 | between texts the comparison is reflexive, symmetric and transitive, and the tolerances do not affect it |
| Comparator.CompareTextIgnoresCaseAndPadding | pycor/__init__.py:38-43 | padding the attempt with whitespace, or lower-casing it, does not change a text comparison |
| Comparator.CompareNormalizesTextAttempt | pycor/__init__.py:38-39 | a text attempt is compared after "," becomes "." and spaces are removed |
| Comparator.CompareTextNumberAsNumber | pycor/__init__.py:38-74 | a number typed as text compares like the number itself |
| Comparator.CompareWithoutToleranceIsEquality | pycor/__init__.py:60-74 | with both tolerances empty, a number matches iff it equals the expected value |
| Comparator.CompareRelativeBoundsInclusive | pycor/__init__.py:62-66 | both ends of the relative window match |
| Comparator.CompareOutsideWindowsFails | pycor/__init__.py:60-74 | a number outside every window that is set, and unequal to the expected value, does not match |
| Comparator.CompareBeyondRelativeFails | pycor/__init__.py:62-68 | an attempt any distance beyond either end of the relative window does not match, for positive and negative expected values |
| Comparator.RelWindowMirror | pycor/__init__.py:61-66 | with the bounds sorted, the relative window is symmetric under negating both the attempt and the expected value |
| Comparator.CompareSignSymmetric | pycor/__init__.py:60-74 | negating both the attempt and the expected value does not change the result |
| Comparator.ExpectedInRelWindow | pycor/__init__.py:62-66 | the expected value is in its own relative window |
| Comparator.RelWindowMonotone | pycor/__init__.py:62-66 | a wider relative tolerance keeps every match |
| Comparator.CompareWiderRelativeTolerance | pycor/__init__.py:60-74 | a match stays a match when the relative tolerance grows |
| Comparator.CompareWiderAbsoluteTolerance | pycor/__init__.py:67-71 | a match stays a match when the absolute tolerance grows |
| Comparator.CompareSrc | src/__init__.py:49-50 | the src compare raises exactly for a text expected value with a non-text attempt |
| Comparator.CompareSrcAgrees | src/__init__.py:28-92 | when the src compare does not raise, it agrees with the current compare |
| Comparator.CompareLegacy | verification_functions.py:58-120 | the Python 2 compare returns only 0 or 1; a 1 needs exact text equality or a numeric expected value and tolerance |
| Comparator.CompareLegacyIsRelativeTolerance | verification_functions.py:96-105 | on numbers it is the current compare with only a relative tolerance |
| Comparator.CompareLegacyTextStricter | verification_functions.py:87-93 | against a unicode expected value every Python 2 match is a current match, and "A" against "a" is refused by it although the current compare accepts it |
| Comparator.LegacyWindowExcludesNonNumbers | verification_functions.py:96-115 | in Python 2 order a non-number attempt never lies between two numeric bounds, so a non-text non-number attempt scores 0 against a float |
| Comparator.CompareLegacyNoneExpected | verification_functions.py:113-120 | an empty expected value raises inside and gives 0, where the current compare gives True |
| Attempts.FirstZero | pycor/excel.py:296-300 | finds the first unused slot, with every earlier slot used, or reports that none exists |
| Attempts.Zeros | pycor/excel.py:293 | a new record has max_attempts unused slots |
| Attempts.Resize | pycor/excel.py:242-251 | cuts to the first n slots or pads with unused slots at the end |
| Attempts.ResizeIdempotent | pycor/excel.py:242-251 | resizing twice to the same length changes nothing more |
| Attempts.ResizeGrowKeepsPassed | pycor/excel.py:245-258 | padding never loses a passed status |
| Attempts.StatsNeverBoth | pycor/excel.py:253-261 | get_stats never reports both blocked and passed |
| Attempts.WriteChangesFirstFreeSlot | pycor/excel.py:296-302 | a write sets the first unused slot and no other |
| Attempts.WriteZeroIsNoOp | pycor/excel.py:296-302 | writing a 0 % score leaves the record unchanged |
| Attempts.WriteKeepsPassed | pycor/excel.py:296-302 | a passed record stays passed after any write |
| Attempts.CleanRecordHasFreeSlot | pycor/excel.py:253-261 | a record with scores in range that is neither blocked nor passed has an unused last slot |
| Attempts.CleanUpdateNeverBoth | pycor/excel.py:281-308 | after get_stats reported (False, False), update_stats never reports blocked and passed together |
| Attempts.FullRecordIsDecided | pycor/excel.py:253-261 | a full record with scores in range is blocked or passed |
| Attempts.FullIffAllUsed | pycor/excel.py:296-304 | no free slot exists iff every slot is used |
| Attempts.WriteUsesOneSlot | pycor/excel.py:296-302 | each nonzero score uses up exactly one slot |
| Store.AttemptStore.GetStats | pycor/excel.py:224-263 | a missing record gives (False, False) and is not created; a stored one is resized and written back, and its stats are returned |
| Store.AttemptStore.UpdateStats | pycor/excel.py:268-332 | a missing record starts as zeros; the score goes into the first free slot, and a full record is left unsaved; the flags are returned; the score and matriculation logs grow by one entry |
| Store.AttemptStore.WriteBlock | pycor/excel.py:289-308 | the in-place write of the block record and the blocked flag |
| Store.FindUnused | pycor/excel.py:296 | finds the first zero slot of the array, or its length |
| Store.NoZeroIsFull | pycor/excel.py:296-304 | a record with every slot used has no free slot, so nothing is written |
| Store.FirstZeroIsFirst | pycor/excel.py:296-300 | an unused slot preceded only by used slots is the one written |
| Verification.SearchZero | verification_functions.py:180-189 | the first unused slot, with every earlier one used |
| Verification.SearchZeroIsFirst | verification_functions.py:187 | an unused slot preceded only by used slots is what search_zero finds |
| Verification.LResize | verification_functions.py:206-217 | pads with unused slots or cuts to TrialsMax |
| Verification.LegacyStore.IsBlocked | verification_functions.py:192-229 | a missing or one-line record gives 0 and stays as it is (len fails on the 0-d array); any other stored record is resized and kept, and the flag is 1 iff its last slot is used, a 100 there included |
| Verification.LegacyStore.IsPassed | verification_functions.py:232-258 | 1 iff the history holds a 100 and has other than one entry; a one-line history fails at len and gives 0 |
| Verification.LegacyStore.UpdateStats | verification_functions.py:261-417 | the block record after the write (a missing, empty or one-line record is replaced by a fresh one, never blocked), the blocked flag, passed iff r is 100, and r and MatNum appended to the logs |
| Verification.LegacyStore.WriteBlock | verification_functions.py:278-313 | the block-record part of update_stats |
| Verification.GradingUsesOneSlot | verification_functions.py:284-307 | grading a record that is not used up fills exactly one more slot, also when a one-line record is replaced by a fresh one |
| Verification.WriteAtFirstZeroUsesOneSlot | verification_functions.py:292-294 | writing at search_zero's slot adds one used slot |
| Verification.LegacyStore.CheckFinal | verification_functions.py:420-456 | 1 iff every exercise 1..TotalTeils has a history whose maximum is 100 |
| Verification.HistoryMax | verification_functions.py:437-438 | np.max: the largest score, which occurs in the history; none for an empty history or one with NaN |
| Verification.HistoryMaxIs100 | verification_functions.py:438-446 | the maximum is 100 iff the history passes the MaxIs100 test |
| Verification.FinalIffAllPassed | verification_functions.py:420-456 | with scores in [0, 100], check_final's test is "every exercise's history holds a 100", a one-entry history included |
| Verification.ActiveRowsExact | verification_functions.py:136-149 | the compared rows are exactly the key rows with `Teil[k] == j`, ascending |
| Verification.GradeRows | verification_functions.py:136-162 | the names and verdicts are parallel, in row order, and cover exactly the active rows; it raises iff an active row lies beyond the student's values |
| Verification.CorrectTeil | verification_functions.py:123-177 | as GradeRows, plus the score computed from the verdicts |
| Verification.TeilScoreRange | verification_functions.py:153-166 | with at least one active row, the score is in (0, 100], and 100 iff every verdict is 1 |
| Verification.Percentage | verification_functions.py:153 | 100·m/n lies in [0, 100] and is 100 iff m = n |
| Verification.CheckMNValid | verification_functions.py:458-471 | 0 iff every entry equals the first |
| Verification.SingleNumberIffOneDistinct | verification_functions.py:458-479 | check_MNvalid reports one number iff count_different is at most 1 |
| Worksheet.StopRow | pycor/excel.py:105-111 | the scan stops at the first row, from row 13, whose column-A cell is empty |
| Worksheet.MaxBefore | pycor/excel.py:130-135 | len(solutions) bounds every exercise number scanned so far |
| Worksheet.SetExerciseRows | pycor/excel.py:83-165 | either the first failing row and its fault, or ranges that tile rows 13..stop-1 and split exactly where the number rises, plus, for a student, solutions[k] as the column-C values of the rows numbered k+1 |
| Worksheet.ReadNumber | pycor/excel.py:114-122 | int() of column A; a failure or a value of at most 0 is an ExcelFileException |
| Worksheet.CheckTolerances | pycor/excel.py:138-160 | a truthy D cell, then a truthy E cell, must pass float() |
| Worksheet.CollectRow | pycor/excel.py:130-137 | appends the column-C value to the list of its number; a gap in the numbering raises IndexError |
| Worksheet.AdvanceBounds | pycor/excel.py:125-128 | a rise opens a range and closes the previous one |
| Worksheet.CloseRanges | pycor/excel.py:109-111 | the stop row closes the last range, and the begin and end lists zip into the ranges |
| Worksheet.ZipRanges | pycor/excel.py:164-165 | pairs begins with ends; a short ends list raises |
| Worksheet.TilesCover | pycor/excel.py:96-128 | every scanned row lies in exactly one range |
| Worksheet.RangesAscend | pycor/excel.py:125-128 | ranges follow each other in row order |
| Worksheet.StartsAreRangeFirsts | pycor/excel.py:125-128 | a row opens a range iff its exercise number rises |
| Worksheet.NumberingHasNoGaps | pycor/excel.py:130-137 | after a successful student scan, every exercise number up to the largest has a row |
| Worksheet.SrcScanRows | src/excel.py:39-70 | the src loop stops at the first non-float in column A, from row 16, and builds the begin and end lists |
| Worksheet.SrcSetExerciseRows | src/excel.py:39-73 | the src scan: ranges that tile the rows and split at rises while the numbers are positive; solutions by truncated number |
| LegacySheet.TeilStop | excel_functions.py:517-530 | the Teil scan stops at the first row whose column-A cell is neither above nor equal to the previous cell in Python 2 order; every row before it is taken |
| LegacySheet.TakenIsFilled | excel_functions.py:517-530 | a taken row is never empty, so the scan stops within the filled area |
| LegacySheet.TextAndDateRows | excel_functions.py:519-526 | a text after a number opens a Teil, a number after a text ends the scan, and a date after a non-date raises |
| LegacySheet.OpenRows | excel_functions.py:519-521 | the opening rows are the rows whose cell lies above the previous one in Python 2 order, ascending |
| LegacySheet.ScanTeils | excel_functions.py:507-538 | it raises iff comparing the stop row's cell raises; otherwise TeilInit holds the labels of the opening rows and TeilEnd the row before each next opening or the stop; the column lists follow the scanned rows; TotalTeils is the cell of the second-to-last taken row (0 before the first), unbound when no row is taken |
| LegacySheet.LabelRoundTrip | excel_functions.py:202-203 | `int(label[1:])` reads back the row of "A<row>" |
| LegacySheet.CheckAllNone | excel_functions.py:176-190 | 1 iff every element is None |
| LegacySheet.ExerciseCheckSubmitted | excel_functions.py:193-221 | returns, ascending, the indices whose slice has some filled entry; it raises iff a label does not parse or the lists are mismatched |
| LegacySheet.SubmittedTeile | excel_functions.py:209-219 | the submitted loop over the shifted bounds |
| LegacySheet.ReadBounds | excel_functions.py:199-207 | label conversion succeeds iff every label parses |
| LegacySheet.AtLeastOne | excel_functions.py:421 | `TrialsMax >= 1` in Python 2: False for None, True for any text, the numeric test for numbers; a date raises |
| LegacySheet.CorrectorCheckout | excel_functions.py:304-431 | usn is B11+C11 without spaces; each of the four flags states its check, the deadline compared (Y, M, D) lexicographically with today; flag_ALL is their conjunction |
| CorrectorSheet.Load | pycor/excel.py:353-482 | a saved state's fields are taken and validated; otherwise a refused field, a failing scan row, or the fields read plus the scanned ranges and the validation status |
| CorrectorSheet.Corrector.constructor | pycor/excel.py:336-482 | the object's fields are the loaded header: a saved state's, or the fields read, with the scanned ranges tiling the exercise rows and split at their start marks; the status is the validation's, or the first failing scan row's reason; `valid` iff ready |
| CorrectorSheet.Corrector.GenerateSolutions | pycor/excel.py:505-548 | one list per range, with one {name, value, tolerance_rel, tolerance_abs} from columns B-E per row of the recomputed sheet |
| CorrectorSheet.ReadRange | pycor/excel.py:538-546 | the key entries of rows first..last of one range |
| CorrectorSheet.DummyCountOfInt | pycor/excel.py:402-416 | any positive C7 is taken, even above 100, because the range test reads the default; a negative one is refused; 0 keeps the default |
| CorrectorSheet.CodenameIsCleaned | pycor/excel.py:419-431 | the codename is the stripped text of B2 with ".xlsx" removed |
| CorrectorSheet.CodenameOfFileName | pycor/excel.py:427-431 | a codename written as a file name loses its ending |
| CorrectorSheet.CodenameSinglePass | pycor/excel.py:429 | the removal is a single pass: ".x.xlsxlsx" becomes ".xlsx" |
| CorrectorSheet.ReadyIff | pycor/excel.py:439-465 | ready iff the deadline is a date not before today, max_attempts is at least 1, and there is an exercise |
| CorrectorSheet.SameDayDeadline | pycor/excel.py:443-452 | a same-day deadline is accepted; an earlier one is ignored |
| CorrectorSheet.ReadFieldsRefusals | pycor/excel.py:394-433 | an empty title or codename refuses the file; an empty B4 gives 0 attempts |
| SrcCorrector.IntOr | src/excel.py:121 | int(x or fallback): a falsy cell gives the fallback, a truthy one its int() value, and a value int() refuses is a refusal |
| SrcCorrector.ReadCorrectorData | src/excel.py:100-147 | each refusal under the checks before it, in order: no subject, a bad deadline, a past deadline, an unreadable E12, fewer than 1 try, a failing exercise scan (uncaught), a bad login, a refused login; accepted exactly when all pass, and then the ranges tile the scanned rows and split at the exercise starts |
| SrcCorrector.ReadStudentData | src/excel.py:226-240 | a missing or negative matriculation number is refused, an unreadable one too, and a failing scan is uncaught; accepted exactly when the number reads as non-negative and the scan passes; A6:CV6 gives the dummies; with positive exercise numbers the ranges tile the rows and solution k is column C of exercise k |
| SrcCorrector.GenerateSolutions | src/excel.py:149-178 | one list per range of {name, value, tolerance} from columns B-D of the recomputed sheet |
| SrcCorrector.DeadlineIsDate | src/excel/__init__.py:64-68 | an accepted deadline is a calendar date built from B9, C9 and D9 |
| SrcCorrector.MissingDeadlinePart | src/excel/__init__.py:64-67 | an empty or 0 part becomes -1 and refuses the file |
| SrcCorrector.LoginJoinsParts | src/excel/__init__.py:91-95 | the login joins the two parts and has no spaces |
| SrcCorrector.CountExercises | src/excel/__init__.py:79-89 | the count loop stops at the first falsy or decreasing value, and the count is the value before the last accepted one |
| SrcCorrector.CountStop | src/excel/__init__.py:79-89 | the count loop walks from row 16 while the cell is truthy and not smaller than the last, and stops at the first row that is not |
| SrcCorrector.CountNotAboveLast | src/excel/__init__.py:79-89 | the count never exceeds the last value accepted |
| SrcCorrector.CountUndercounts | src/excel/__init__.py:79-89 | exercises 1, 2 and then an empty cell count as 1 |
| SrcCorrector.ReadCorrector | src/excel/__init__.py:55-106 | each refusal under the checks before it: no subject, a bad deadline, a past deadline, a non-numeric E12, fewer than 1 try, a non-number where the count loop stops, a bad login, a refused login; accepted exactly when all pass, with the exercise count of the loop |
| SrcCorrector.FromSubjectFolder | src/excel/__init__.py:125-135 | the first listed file ending in xlsx, xlsm or xls, or None |
| Correction.Percent | pycor/__init__.py:251-256 | the percentage is in [0, 100], 100 iff every sub-task matched, and 0 iff fewer than 1 in 100 matched |
| Correction.PercentBounds | pycor/__init__.py:251-256 | 100·a/b with a ≤ b is in [0, 100], 100 iff a = b, 0 iff 100·a < b |
| Correction.CompareAll | pycor/__init__.py:239-248 | compares the sub-tasks in order, collecting the verdicts and names, or reports that a comparison raised |
| Correction.ApplyEffect | pycor/__init__.py:190-263 | an exercise changes its own record as its outcome says, and no other |
| Correction.Run | pycor/__init__.py:190-263 | the run over the first n exercises yields one outcome per exercise |
| Correction.CrashPoint | src/__init__.py:185-255 | the loop stops right after the first exercise that raises, or runs to the end |
| Correction.CurrentNeverCrashes | pycor/__init__.py:75-85 | the current package's exercise loop never raises |
| Correction.IncompleteIsSilent | pycor/__init__.py:192-194 | an exercise with an empty sub-task is skipped and leaves its record untouched |
| Correction.GradedPassedIffAllCorrect | pycor/__init__.py:250-257 | a score is recorded iff there is a sub-task; it is in [0, 100], and passed iff every sub-task matched |
| Correction.GradedNeverBoth | pycor/excel.py:253-308 | with every slot a percentage, a graded exercise is never both blocked and passed |
| Correction.ZeroScoreUsesNoSlot | pycor/excel.py:289-302 | a 0 % grade uses no slot: it leaves a stored record as get_stats resized it, and turns a missing one into a record of unused slots |
| Correction.OnlyGradingIsLogged | pycor/excel.py:317-327 | only a recorded grade adds to the score and matriculation logs |
| Correction.CorrectExercise | pycor/__init__.py:190-263 | the loop body: its outcome is judged on the exercise's own stored record, and the store changes as Apply says |
| Correction.GradeExercise | pycor/__init__.py:233-263 | compares and, with at least one sub-task, records the percentage; otherwise the store is unchanged |
| Correction.Step | pycor/__init__.py:190-263 | one turn extends the run by one exercise and updates the four lists |
| Correction.Tally | pycor/__init__.py:205-261 | blocked and passed lists hold 0-based indices; the erroneous list holds idx+1 |
| Correction.CorrectExercises | pycor/__init__.py:184-263 | the loop leaves the store as the fold of the exercises up to the first exception, and the lists as the indices of each kind |
| Correction.CorrectSubmission | pycor/__init__.py:166-332 | a file without exercises, or with a count different from the key, gets a malformed notice and changes nothing; otherwise the store is the run up to the first exception, and the notices follow from the outcomes |
| Correction.RunLeavesOthers | pycor/__init__.py:190-263 | a run touches no record other than the submitting student's exercises |
| Correction.RunIsPerExercise | pycor/__init__.py:190-263 | each exercise is judged on its own record as it was before the run |
| Correction.LastStep | pycor/__init__.py:190-263 | the last turn judges the last exercise on the store the run left |
| Correction.CongratsIffAllPassed | pycor/__init__.py:302-309 | congratulations are sent iff every exercise ends on the passed list |
| Correction.NothingCorrectedIffAllIncomplete | pycor/__init__.py:321-332 | the nothing-corrected notice is sent iff every exercise was skipped for an empty field |
| LegacyCorrection.TeilOfRaises | verification_functions.py:136-149 | correct_Teil raises IndexError iff an active row lies beyond the student's values |
| LegacyCorrection.CorrectOne | excel_functions.py:651-721 | one turn: is_blocked, is_passed, then correct_Teil and update_stats only when neither holds |
| LegacyCorrection.GradeOne | excel_functions.py:661-707 | the grading branch |
| LegacyCorrection.TallyOne | excel_functions.py:688-712 | j_passed and j_blocked hold 1-based exercise numbers |
| LegacyCorrection.Turn | excel_functions.py:642-721 | one turn extends the run and the lists |
| LegacyCorrection.LRun | excel_functions.py:642-721 | the run over the first n submitted exercises yields one outcome each |
| LegacyCorrection.LStop | excel_functions.py:642-721 | the loop stops right after the first exercise that raises, or runs to the end |
| LegacyCorrection.CorrectTeile | excel_functions.py:642-721 | the loop leaves the files as the run up to the first exception |
| LegacyCorrection.Correction | excel_functions.py:640-762 | the files are the run over subm up to the first exception, and the mails follow from the outcomes and check_final |
| LegacyCorrection.LMails | excel_functions.py:736-760 | the results mail always comes first; the passed and blocked mails are sent iff their lists are non-empty; the final mail iff check_final |
| LegacyCorrection.StepDecision | excel_functions.py:651-712 | grading happens iff neither blocked nor passed; blocked-listed iff blocked before or blocked now; a passed exercise is skipped silently; only grading logs |
| LegacyCorrection.NoRegradingAfterPass | excel_functions.py:651-654 | a 100 graded onto a history that already had an entry stops all further grading of that exercise |
| LegacyCorrection.FirstPassIsRegraded | verification_functions.py:232-258 | a 100 at an exercise's first grading is graded again on the next turn: the one-line history fails is_passed's len, and the fresh record is not used up |
| LegacyCorrection.NoRegradingAfterBlock | verification_functions.py:192-229 | after a turn that blocked, the next turn finds it blocked |
| LegacyCorrection.NumbersExact | excel_functions.py:688-712 | the lists hold exactly i+1 for the listed submitted indices |
| LegacyCorrection.FinalMailIffAllPassed | excel_functions.py:756-760 | the final mail is sent iff every exercise 1..TotalTeils has a 100 in its history |
| Mail.EncodeName | pycor/mail.py:24-32 | raises iff there is no name, or its charset decoding fails; a header that does not parse gives "" |
| Mail.LeafFilter | pycor/mail.py:43-70 | a str part gives False; a leaf is reported iff it is a workbook: xlsx or octet-stream type, decoded name ending in ".xlsx" |
| Mail.FilterFindsWorkbooks | pycor/mail.py:47-60 | whatever the recursive filter finds is a workbook leaf |
| Mail.FirstFileFindsWorkbooks | pycor/mail.py:55-60 | the first qualifying sub-part is a workbook |
| Mail.TopItems | pycor/mail.py:75 | iterating a payload: a list's parts, or a text's characters |
| Mail.FilterFiles | pycor/mail.py:73-80 | the workbooks among the top-level parts, in order, at most one per part |
| Mail.FilesAreWorkbooks | pycor/mail.py:73-80 | everything kept is a workbook, and there are at most as many as parts |
| Mail.BodyHasNoFiles | pycor/mail.py:73-80 | a plain body holds no file |
| Mail.Dispatch | pycor/mail.py:169-241 | the loop body's checks, in the source's order, give the route RouteOf defines |
| Mail.CheckInbox | pycor/mail.py:160-243 | corr_files collected over the messages, stopping at the first exception |
| Mail.SenderClassification | pycor/mail.py:169-183 | automatic senders and the bot itself are ignored; others outside the accepted domains get the wrong-address answer |
| Mail.AcceptedIsLegitimate | pycor/mail.py:169-226 | an accepted message has a legitimate sender, did not ask for help while an admin is configured, carries a workbook, and names a registered codename |
| Mail.PlainBodyIsInvalid | pycor/mail.py:202-210 | a legitimate message with a plain body gets the invalid-attachment answer |
| Mail.CodenameOfFile | pycor/mail.py:212-213 | a lower-case, stripped codename plus ".xlsx" reads back as the codename |
| Mail.CodenameFileIsAccepted | pycor/mail.py:202-235 | a single workbook named after a registered codename is accepted for it |
| SrcMail.Candidates | src/mail.py:124-128 | the candidates are top-level messages of exactly the xlsx type |
| SrcMail.Match | src/mail.py:135-139 | a codename matches iff codename + ".xlsx" equals the stripped, lower-cased name |
| SrcMail.AttachmentRoute | src/mail.py:124-158 | attachments give invalid, accepted or unknown |
| SrcMail.CheckInbox | src/mail.py:97-174 | corr_files from the routes, stopping at the first exception |
| SrcMail.GatherRoutes | src/mail.py:160-167 | gathers the accepted, downloaded messages |
| SrcMail.GatheredAreAccepted | src/mail.py:160-167 | every entry comes from an accepted message whose download succeeded |
| SrcMail.ProblemForwardedFirst | src/mail.py:97-109 | a "problem" subject is forwarded before any sender check |
| SrcMail.CampusSender | src/mail.py:113-173 | a sender is refused iff the address does not end with "fh-aachen.de"; no "@" is needed |
| SrcMail.AcceptedMatchesCodename | src/mail.py:122-167 | an accepted file is the only candidate, and its name is the codename plus ".xlsx" |
| SrcMail.MatchOfCodename | src/mail.py:135-139 | a registered codename's file name matches it |
| SrcMail.CodenameFileIsAccepted | src/mail.py:122-167 | a single xlsx attachment named after a codename is accepted |
| SrcMail.Domain | src/mail/__init__.py:12 | the text after the last "@": a suffix without "@" |
| SrcMail.DomainOfAddress | src/mail/__init__.py:12 | the domain of local@domain is domain |
| SrcMail.ChooseServerIsTable | src/mail/__init__.py:12-29 | for every address the servers are the entry for the text after its last "@" in the table gmail.com, ad.fh-aachen.de, 0x0f.net, and any other domain raises |
| SrcMail.PlainCampusDomainRaises | src/mail/__init__.py:26-27 | the plain campus domain raises |
| LegacyMail.ServerBySuffix | email_functions.py:100-123 | the gmail servers iff the address ends with "gmail.com"; the campus servers iff it ends with "fh-aachen.de"; otherwise two empty names |
| LegacyMail.ClassifyBySuffix | email_functions.py:202-238 | verify accepts iff the address ends with "fh-aachen.de"; of the rest, automatic-sender prefixes are dropped silently |
| LegacyMail.CampusNoreplyIsValid | email_functions.py:202-209 | a noreply address on the campus domain is accepted |
| LegacyMail.Walk | email_functions.py:256 | walk yields the part first |
| LegacyMail.CountOutcomes | email_functions.py:256-324 | the counting loop gives the tally of the walked parts |
| LegacyMail.TallyCounts | email_functions.py:256-324 | the count raises iff some part raises; otherwise it is the number of counted parts |
| LegacyMail.CheckSingleAtt | email_functions.py:243-354 | a walked part that raises makes the call raise its error; it raises UnboundLocalError (NoPayload) iff no part raises, exactly one part counts and no walked part is an application part; otherwise 1 iff exactly one part counts and the file passes check_exercise |
| LegacyMail.HasApplication | email_functions.py:268-271 | the payload to save is bound iff some walked part has main type "application" |
| LegacyMail.ImageAttachmentLeavesNoPayload | email_functions.py:262-344 | an image part attached under any name ending ".xlsx" is the one counted attachment, yet no application part binds a payload, so the save raises |
| LegacyMail.ExcelEndingCounts | email_functions.py:302-324 | names ending in ".xls", ".xlsx" or ".xlsm" count |
| LegacyMail.NoLetterLNotCounted | email_functions.py:302-324 | a name without an "l" never counts |
| LegacyMail.PlainMessageHasNoValid | email_functions.py:262-275 | a plain text message has no valid attachment |
| LegacyResults.ResultsRows | email_functions.py:581-597 | one row per verdict; raises iff there are fewer names than verdicts |
| LegacyResults.AllRichtigIffFull | email_functions.py:584-597 | every row says "Richtig" iff the exercise scored 100 |
| Scheduler.PyMod | pycor/__main__.py:65 | Python's remainder has the divisor's sign |
| Scheduler.SleepBounds | pycor/__main__.py:58-70 | for a delay D of at least 1, the pause is in [1, 60·D] seconds |
| Scheduler.NegativeDelayBounds | pycor/__main__.py:64-67 | a negative delay still pauses between 1 second and \|D\| minutes |
| Scheduler.NextMark | pycor/__main__.py:61-67 | counting seconds from the start of the hour, the run resumes at the first multiple of 60·D seconds after now |
| Scheduler.OnMarkWaitsFullDelay | pycor/__main__.py:64-67 | on a mark, the pause is a full delay |
| Scheduler.ZeroDelayRaises | pycor/__main__.py:65 | a zero delay divides by zero |

## Left out

- Spreadsheet access (openpyxl, the COM automation) is left out. A sheet
  is an input map from (row, column) to a cell value. The recomputation
  in `generate_solutions` is an opaque function of the matriculation
  number and the dummies. `check_exercise` is the `excelOk` parameter.
- File persistence is left out; the record files are maps in memory.
  - The "%3.2f" text round trip is not modelled.
  - `np.loadtxt` returns a 0-d array for a one-line file. The first
    generation's readers are modelled with it: a one-entry record or
    history is treated as unreadable where `len` or `[-1]` is used. The
    current `Store` keeps its records as sequences: see the
    Store.AttemptStore.GetStats line below.
  - The history time stamps, `write_error`, `write_ignore` and the
    PYCOR_IGNORE file are not modelled.
  - The first generation's file naming and unreadable files are not
    modelled: a missing file stands for both.
- The clock is a parameter: today's date for the deadline checks, and
  the minute and second for the pause.
- The pause loop's `sleep` and logging are left out.
- Floating point is left out; floats are `real`.
  - `float()` parses plain decimals only: an optional sign, digits and
    one point. Exponents, inf, nan and underscores are not parsed.
  - Correction.Percent is the integer floor of 100·matched/total. The
    source computes `int(sum/len*100)` on floats, which can be one less
    (29 of 100 gives 28). The "100 iff all matched" property holds
    either way.
- LegacyMail.CheckSingleAtt: the saved file is the payload of the last
  application part walked, which need not be the counted attachment.
  `excelOk` stands for check_exercise of that file, whichever it is.
- Booleans count as "other" cells, not as the integers 0 and 1 Python
  would make of them.
- `lower`, `strip` and `isnumeric` act on ASCII only.
- Password lookup, decryption, licensing and the password command-line
  interface are left out.
- The mail login is left out; the login check is the `canLogin`
  parameter.
- `pycor/state.py` is left out. A cache hit with an unchanged change
  date is the `saved` parameter of CorrectorSheet.Load.
- The network is left out: IMAP, SMTP, sending, forwarding and
  downloading.
  - A download's success is the `saved` flag of each message.
  - `decode_header` is a `Decoding` value given with each file name.
  - `parseaddr` gives the sender, which is an input.
- The mail texts and HTML templates are left out. The results table
  escapes names with `xmlcharrefreplace`; names are assumed ASCII.
- The routes of the messages, and the outcomes of the attachment parts,
  are computed before the gathering and counting loops run. Computing
  them has no side effects, so the result is the same as computing them
  inside the loop.
- Reporting and plotting (src/post.py, postprocessing_functions.py) are
  left out.
- PyCor.py, whose correction branch is dead, and the logging setup are
  left out.
- Python 2 mixed-type ordering (Cells.Py2Order) covers None, numbers,
  texts and dates. A cell of any other type is taken to raise when
  ordered, where Python 2 would order it by its type name.
- Store.AttemptStore.GetStats: requires max_attempts of at least 1. The
  corrector validation guarantees this before any grading. With 0 the
  source raises IndexError on the empty record.
- Store.AttemptStore.GetStats: a record of max_attempts 1 is saved as
  one line and read back as a 0-d array. In the source, `len` then
  raises a TypeError that nothing catches, and `update_stats` fails the
  same way when it enumerates the record. The model reads the record as
  a sequence of one slot and does not raise.
- Store.AttemptStore.UpdateStats: requires max_attempts of at least 1,
  for the same reason.
- Store.AttemptStore.WriteBlock: requires max_attempts of at least 1,
  for the same reason.
- Verification.LegacyStore.UpdateStats: requires TrialsMax of at least 1.
  corrector_checkout refuses a smaller value. With 0 and no record, the
  source raises IndexError.
- Verification.LegacyStore.WriteBlock: requires TrialsMax of at least 1,
  for the same reason.
- Scheduler.NextMark: holds for every minute, but it counts seconds
  from the start of the hour without wrapping. When D does not divide
  60, the wake time past minute 59 is not a clock mark. For example,
  with D = 7 at minute 56 the run wakes at minute 63, which is minute
  03 of the next hour and not a multiple of 7.
- CorrectorSheet.Corrector.GenerateSolutions: the cell writes of the
  matriculation number and dummies are folded into the `evaluate`
  parameter.
- SrcCorrector.GenerateSolutions: the cell writes are folded into the
  `evaluate` parameter in the same way.
