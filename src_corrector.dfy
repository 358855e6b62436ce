/** The corrector and student files of the `src` package: the header
    checks of ExcelCorrector.read_data and ExcelStudent.read_data
    (src/excel.py), the answer key of generate_solutions, and the older
    ExcelCorrector.read_corrector with its exercise count and
    from_subject_folder (src/excel/__init__.py). */
module SrcCorrector {
  import opened Wrappers
  import opened Text
  import opened Cells
  import opened Worksheet

  /** Why a file is refused (ExcelFileException or CorrectorException),
      or Uncaught for an exception nothing catches (IndexError). */
  datatype Reason =
    | NoSubject
    | BadDeadline      // a deadline part is empty, 0 or -1
    | OverDeadline
    | BadTries
    | NoLogin          // an e-mail part is empty
    | LoginFailed
    | Unreadable       // TypeError or ValueError, re-raised as refusal
    | BadMatNum
    | Uncaught

  // ---------------------------------------------------------------- dates

  predicate LeapYear(y: int)
  {
    (y % 4 == 0 && y % 100 != 0) || y % 400 == 0
  }

  function DaysInMonth(y: int, m: int): int
    requires 1 <= m <= 12
  {
    if m == 2 then (if LeapYear(y) then 29 else 28)
    else if m == 4 || m == 6 || m == 9 || m == 11 then 30
    else 31
  }

  /** The arguments datetime.date accepts. */
  predicate ValidDate(d: Date)
  {
    1 <= d.year <= 9999 && 1 <= d.month <= 12 && 1 <= d.day <= DaysInMonth(d.year, d.month)
  }

  /** int(x or fallback): a falsy cell gives the fallback, and int()
      refusing the value raises ValueError or TypeError, both caught as
      a refusal. */
  function IntOr(c: Cell, fallback: int): (r: Result<int, Reason>)
    ensures !Truthy(c) ==> r == Ok(fallback)
    ensures Truthy(c) ==> (r.Ok? <==> ToInt(c).Ok?) && (r.Ok? ==> r.value == ToInt(c).value)
    ensures r.Err? ==> r.error == Unreadable
  {
    if !Truthy(c) then Ok(fallback)
    else match ToInt(c)
      case Ok(n) => Ok(n)
      case Err(_) => Err(Unreadable)
  }

  /** int(x or -1) for one deadline cell. */
  function DatePart(c: Cell): Result<int, Reason>
  {
    IntOr(c, -1)
  }

  /** The deadline from B9 (day), C9 (month) and D9 (year): the parts are
      converted left to right, any -1 among them refuses the file, and
      datetime.date refuses an impossible date with ValueError. */
  function Deadline(ws: Sheet): Result<Date, Reason>
  {
    match (DatePart(At(ws, 9, ColB)), DatePart(At(ws, 9, ColC)), DatePart(At(ws, 9, ColD)))
    case (Err(e), _, _) => Err(e)
    case (Ok(_), Err(e), _) => Err(e)
    case (Ok(_), Ok(_), Err(e)) => Err(e)
    case (Ok(day), Ok(month), Ok(year)) =>
      if day == -1 || month == -1 || year == -1 then Err(BadDeadline)
      else if !ValidDate(Date(year, month, day)) then Err(Unreadable)
      else Ok(Date(year, month, day))
  }

  /** ''.join(B11:C11).replace(' ', ''): both parts must be present and
      be text. */
  function Login(ws: Sheet): Result<string, Reason>
  {
    var a, b := At(ws, 11, ColB), At(ws, 11, ColC);
    if a.Empty? || b.Empty? then Err(NoLogin)
    else if !a.Text? || !b.Text? then Err(Unreadable)
    else Ok(DeleteChar(a.s + b.s, ' '))
  }

  // ------------------------------------------------- src/excel.py files

  /** What ExcelCorrector keeps after read_data. */
  datatype CorrectorData = CorrectorData(
    subject: Cell, deadline: Date, maxTries: int, ranges: seq<Range>, login: string)

  /** The file names a subject and a deadline that is not past. */
  predicate Current(ws: Sheet, today: Date)
  {
    Truthy(At(ws, 1, ColB)) && Deadline(ws).Ok? && !DateBefore(Deadline(ws).value, today)
  }

  /** The exercise scan of set_exercise_rows ends without an exception:
      every row passes and no range is left without its end. */
  predicate ScanPasses(ws: Sheet, isStudent: bool)
  {
    var first := FirstRow(Src);
    var stop := StopRow(Src, ws, first);
    RowsPass(Src, ws, isStudent, first, stop) && |Starts(Src, ws, stop)| <= |Closes(Src, ws, stop)| + 1
  }

  /** max_tries = int(E12 or 0). */
  function Tries(ws: Sheet): Result<int, Reason>
  {
    IntOr(At(ws, 12, ColE), 0)
  }

  /** ExcelCorrector.read_data: subject, deadline (not before today),
      int(E12 or 0) of at least 1, the exercise rows, and a login built
      from B11:C11 that the mail server accepts (`canLogin` stands for
      the IMAP login). The exercise scan's IndexError is not caught.
      Each refusal is stated under the checks before it, and the file is
      accepted exactly when all of them pass. */
  method ReadCorrectorData(ws: Sheet, today: Date, canLogin: string -> bool) returns (r: Result<CorrectorData, Reason>)
    ensures !Truthy(At(ws, 1, ColB)) ==> r == Err(NoSubject)
    ensures Truthy(At(ws, 1, ColB)) && Deadline(ws).Err? ==> r == Err(Deadline(ws).error)
    ensures Truthy(At(ws, 1, ColB)) && Deadline(ws).Ok? && DateBefore(Deadline(ws).value, today) ==> r == Err(OverDeadline)
    ensures Current(ws, today) && Tries(ws).Err? ==> r == Err(Unreadable)
    ensures Current(ws, today) && Tries(ws).Ok? && Tries(ws).value < 1 ==> r == Err(BadTries)
    ensures Current(ws, today) && Tries(ws).Ok? && Tries(ws).value >= 1 && !ScanPasses(ws, false) ==> r == Err(Uncaught)
    ensures Current(ws, today) && Tries(ws).Ok? && Tries(ws).value >= 1 && ScanPasses(ws, false) && Login(ws).Err? ==>
              r == Err(Login(ws).error)
    ensures Current(ws, today) && Tries(ws).Ok? && Tries(ws).value >= 1 && ScanPasses(ws, false) && Login(ws).Ok? ==>
              (r.Ok? <==> canLogin(Login(ws).value)) && (r.Err? ==> r.error == LoginFailed)
    ensures r.Ok? <==>
              Current(ws, today) && Tries(ws).Ok? && Tries(ws).value >= 1 && ScanPasses(ws, false)
              && Login(ws).Ok? && canLogin(Login(ws).value)
    ensures r.Ok? ==>
              && r.value.subject == At(ws, 1, ColB)
              && Deadline(ws) == Ok(r.value.deadline)
              && Tries(ws) == Ok(r.value.maxTries)
              && Login(ws) == Ok(r.value.login)
              && (AllPositive(Src, ws, FirstRow(Src), StopRow(Src, ws, FirstRow(Src))) ==>
                    && Tiles(r.value.ranges, FirstRow(Src), StopRow(Src, ws, FirstRow(Src)))
                    && SplitAtStarts(Src, ws, r.value.ranges))
    ensures r.Err? && r.error == LoginFailed ==> Login(ws).Ok? && !canLogin(Login(ws).value)
  {
    var subject := At(ws, 1, ColB);
    if !Truthy(subject) {
      return Err(NoSubject);
    }
    var deadline := Deadline(ws);
    if deadline.Err? {
      return Err(deadline.error);
    }
    if DateBefore(deadline.value, today) {
      return Err(OverDeadline);
    }
    var t := IntOr(At(ws, 12, ColE), 0);
    if t.Err? {
      return Err(t.error);
    }
    var tries := t.value;
    if tries < 1 {
      return Err(BadTries);
    }
    var scan := SrcSetExerciseRows(ws, false);
    if scan.Err? {
      return Err(Uncaught);
    }
    var login := Login(ws);
    if login.Err? {
      return Err(login.error);
    }
    if !canLogin(login.value) {
      return Err(LoginFailed);
    }
    r := Ok(CorrectorData(subject, deadline.value, tries, scan.value.ranges, login.value));
  }

  /** What ExcelStudent keeps after read_data. */
  datatype StudentData = StudentData(matNum: int, dummies: seq<Cell>, ranges: seq<Range>, solutions: seq<seq<Cell>>)

  /** The hundred dummy cells A6:CV6. */
  function DummyRow(ws: Sheet): (d: seq<Cell>)
    ensures |d| == 100
  {
    seq(100, i => At(ws, 6, i + 1))
  }

  /** ExcelStudent.read_data: int(B3 or -1) must not be negative; the
      dummies are A6:CV6; the student scan collects column C, and its
      IndexError is not caught. The file is accepted exactly when the
      number reads and the scan passes; with positive exercise numbers
      the ranges tile the scanned rows and each solution list is the
      column C of its exercise. */
  method ReadStudentData(ws: Sheet) returns (r: Result<StudentData, Reason>)
    ensures !Truthy(At(ws, 3, ColB)) ==> r == Err(BadMatNum)
    ensures Truthy(At(ws, 3, ColB)) && ToInt(At(ws, 3, ColB)).Err? ==> r == Err(Unreadable)
    ensures Truthy(At(ws, 3, ColB)) && ToInt(At(ws, 3, ColB)).Ok? && ToInt(At(ws, 3, ColB)).value < 0 ==> r == Err(BadMatNum)
    ensures IntOr(At(ws, 3, ColB), -1).Ok? && IntOr(At(ws, 3, ColB), -1).value >= 0 && !ScanPasses(ws, true) ==>
              r == Err(Uncaught)
    ensures r.Ok? <==> IntOr(At(ws, 3, ColB), -1).Ok? && IntOr(At(ws, 3, ColB), -1).value >= 0 && ScanPasses(ws, true)
    ensures r.Ok? ==>
              && ToInt(At(ws, 3, ColB)) == Ok(r.value.matNum) && r.value.matNum >= 0
              && r.value.dummies == DummyRow(ws)
              && |r.value.solutions| == MaxBefore(Src, ws, StopRow(Src, ws, FirstRow(Src)))
    ensures var first := FirstRow(Src);
            var stop := StopRow(Src, ws, first);
            r.Ok? && AllPositive(Src, ws, first, stop) ==>
              && Tiles(r.value.ranges, first, stop) && SplitAtStarts(Src, ws, r.value.ranges)
              && forall k :: 0 <= k < |r.value.solutions| ==> r.value.solutions[k] == Column(Src, ws, stop, k + 1)
    ensures r.Err? && r.error == Uncaught ==> !RowsPass(Src, ws, true, FirstRow(Src), StopRow(Src, ws, FirstRow(Src))) || !AllPositive(Src, ws, FirstRow(Src), StopRow(Src, ws, FirstRow(Src)))
  {
    var m := IntOr(At(ws, 3, ColB), -1);
    if m.Err? {
      return Err(m.error);
    }
    var matNum := m.value;
    var dummies := DummyRow(ws);
    if matNum < 0 {
      return Err(BadMatNum);
    }
    var scan := SrcSetExerciseRows(ws, true);
    if scan.Err? {
      return Err(Uncaught);
    }
    r := Ok(StudentData(matNum, dummies, scan.value.ranges, scan.value.solutions));
  }

  /** One row of the src answer key: name (B), value (C) and a single
      tolerance (D). */
  datatype SrcEntry = SrcEntry(name: Cell, value: Cell, tolerance: Cell)

  function SrcEntryAt(sheet: Sheet, row: int): SrcEntry
  {
    SrcEntry(At(sheet, row, ColB), At(sheet, row, ColC), At(sheet, row, ColD))
  }

  function RowCount(r: Range): nat
  {
    if r.last < r.first then 0 else r.last - r.first + 1
  }

  /** generate_solutions: `evaluate` stands for writing the
      matriculation number to B3 and the dummies to A6:CV6 and letting the
      spreadsheet recompute; one list per range of the B, C, D values of
      its rows. */
  method GenerateSolutions(ranges: seq<Range>, evaluate: (int, seq<Cell>) -> Sheet, matNum: int, dummies: seq<Cell>)
    returns (key: seq<seq<SrcEntry>>)
    ensures |key| == |ranges|
    ensures forall i :: 0 <= i < |ranges| ==>
              |key[i]| == RowCount(ranges[i])
              && forall k :: 0 <= k < |key[i]| ==> key[i][k] == SrcEntryAt(evaluate(matNum, dummies), ranges[i].first + k)
  {
    var sheet := evaluate(matNum, dummies);
    key := [];
    var idx := 0;
    while idx < |ranges|
      invariant 0 <= idx <= |ranges|
      invariant |key| == idx
      invariant forall i :: 0 <= i < idx ==>
                  |key[i]| == RowCount(ranges[i])
                  && forall k :: 0 <= k < |key[i]| ==> key[i][k] == SrcEntryAt(sheet, ranges[i].first + k)
    {
      var r := ranges[idx];
      var rows: seq<SrcEntry> := [];
      var cell := r.first;
      while cell < r.last + 1
        invariant r.first <= cell && (r.last < r.first ==> cell == r.first)
        invariant r.first <= r.last ==> cell <= r.last + 1
        invariant |rows| == cell - r.first
        invariant forall k :: 0 <= k < |rows| ==> rows[k] == SrcEntryAt(sheet, r.first + k)
      {
        rows := rows + [SrcEntryAt(sheet, cell)];
        cell := cell + 1;
      }
      key := key + [rows];
      idx := idx + 1;
    }
  }

  // ------------------------------------------ src/excel/__init__.py files

  const CountFirstRow := 16

  /** Column A as the count loop reads it: the value of a row it accepts. */
  function Value(ws: Sheet, row: int): Option<real>
  {
    NumOf(At(ws, row, ColA))
  }

  /** cell_previous when the loop reaches `row`. */
  function PrevValue(ws: Sheet, row: int): real
  {
    if row <= CountFirstRow || Value(ws, row - 1).None? then 0.0 else Value(ws, row - 1).value
  }

  /** exercise_count when the loop reaches `row`: the value before the
      previous one. */
  function CountAt(ws: Sheet, row: int): real
  {
    if row <= CountFirstRow then 0.0 else PrevValue(ws, row - 1)
  }

  /** The loop goes on past `row`: a truthy number not below the previous
      one. */
  predicate Continues(ws: Sheet, row: int)
  {
    Truthy(At(ws, row, ColA)) && Value(ws, row).Some? && Value(ws, row).value >= PrevValue(ws, row)
  }

  /** The row the count loop stops at. */
  function CountStop(ws: Sheet, row: int): (r: int)
    requires row >= CountFirstRow
    ensures r >= row && !Continues(ws, r)
    ensures forall k :: row <= k < r ==> Continues(ws, k)
    decreases |ws| + 1 - row
  {
    if !Continues(ws, row) then row else CountStop(ws, row + 1)
  }

  /** The exercise-count loop: it stops at the first empty or decreasing
      value; comparing a truthy non-number with the previous value raises
      TypeError. The count is the value of the row before the last
      accepted row, 0 when at most one row was accepted. */
  method CountExercises(ws: Sheet) returns (r: Result<real, Reason>)
    ensures var stop := CountStop(ws, CountFirstRow);
            && (r.Err? <==> Truthy(At(ws, stop, ColA)) && Value(ws, stop).None?)
            && (r.Err? ==> r.error == Unreadable)
            && (r.Ok? ==> r.value == CountAt(ws, stop))
  {
    ghost var stop := CountStop(ws, CountFirstRow);
    var index := CountFirstRow;
    var previous := 0.0;
    var count := 0.0;
    while true
      invariant CountFirstRow <= index <= stop
      invariant previous == PrevValue(ws, index)
      invariant count == CountAt(ws, index)
      invariant forall k :: CountFirstRow <= k < index ==> Continues(ws, k)
      decreases stop - index
    {
      var active := At(ws, index, ColA);
      if !Truthy(active) {
        assert !Continues(ws, index);
        break;
      }
      var x := NumOf(active);
      if x.None? {
        assert !Continues(ws, index);
        return Err(Unreadable);
      }
      if x.value < previous {
        assert !Continues(ws, index);
        break;
      }
      count := previous;
      previous := x.value;
      index := index + 1;
    }
    r := Ok(count);
  }

  /** What ExcelCorrector keeps after read_corrector. */
  datatype OldCorrectorData = OldCorrectorData(
    subject: Cell, deadline: Date, maxTries: real, exerciseCount: real, login: string)

  /** read_corrector: as read_data, except that E12 is compared raw (a
      missing or non-numeric value raises TypeError, caught as a refusal)
      and the exercises are counted rather than scanned. The file is
      accepted exactly when every check passes. */
  method ReadCorrector(ws: Sheet, today: Date, canLogin: string -> bool) returns (r: Result<OldCorrectorData, Reason>)
    ensures !Truthy(At(ws, 1, ColB)) ==> r == Err(NoSubject)
    ensures Truthy(At(ws, 1, ColB)) && Deadline(ws).Err? ==> r == Err(Deadline(ws).error)
    ensures Truthy(At(ws, 1, ColB)) && Deadline(ws).Ok? && DateBefore(Deadline(ws).value, today) ==> r == Err(OverDeadline)
    ensures Current(ws, today) && NumOf(At(ws, 12, ColE)).None? ==> r == Err(Unreadable)
    ensures Current(ws, today) && NumOf(At(ws, 12, ColE)).Some? && NumOf(At(ws, 12, ColE)).value < 1.0 ==> r == Err(BadTries)
    ensures var stop := CountStop(ws, CountFirstRow);
            (Current(ws, today) && NumOf(At(ws, 12, ColE)).Some? && NumOf(At(ws, 12, ColE)).value >= 1.0
             && Truthy(At(ws, stop, ColA)) && Value(ws, stop).None?) ==> r == Err(Unreadable)
    ensures var stop := CountStop(ws, CountFirstRow);
            (Current(ws, today) && NumOf(At(ws, 12, ColE)).Some? && NumOf(At(ws, 12, ColE)).value >= 1.0
             && !(Truthy(At(ws, stop, ColA)) && Value(ws, stop).None?) && Login(ws).Err?) ==> r == Err(Login(ws).error)
    ensures r.Ok? <==>
              var stop := CountStop(ws, CountFirstRow);
              Current(ws, today) && NumOf(At(ws, 12, ColE)).Some? && NumOf(At(ws, 12, ColE)).value >= 1.0
              && !(Truthy(At(ws, stop, ColA)) && Value(ws, stop).None?)
              && Login(ws).Ok? && canLogin(Login(ws).value)
    ensures r.Ok? ==>
              && r.value.subject == At(ws, 1, ColB) && Truthy(r.value.subject)
              && Deadline(ws) == Ok(r.value.deadline) && !DateBefore(r.value.deadline, today)
              && NumOf(At(ws, 12, ColE)) == Some(r.value.maxTries) && r.value.maxTries >= 1.0
              && r.value.exerciseCount == CountAt(ws, CountStop(ws, CountFirstRow))
              && Login(ws) == Ok(r.value.login) && canLogin(r.value.login)
    ensures r.Err? && r.error == LoginFailed ==> Login(ws).Ok? && !canLogin(Login(ws).value)
  {
    var subject := At(ws, 1, ColB);
    if !Truthy(subject) {
      return Err(NoSubject);
    }
    var deadline := Deadline(ws);
    if deadline.Err? {
      return Err(deadline.error);
    }
    if DateBefore(deadline.value, today) {
      return Err(OverDeadline);
    }
    var tries := NumOf(At(ws, 12, ColE));
    if tries.None? {
      return Err(Unreadable);
    }
    if tries.value < 1.0 {
      return Err(BadTries);
    }
    var count := CountExercises(ws);
    if count.Err? {
      return Err(count.error);
    }
    var login := Login(ws);
    if login.Err? {
      return Err(login.error);
    }
    if !canLogin(login.value) {
      return Err(LoginFailed);
    }
    r := Ok(OldCorrectorData(subject, deadline.value, tries.value, count.value, login.value));
  }

  /** A folder entry: its name and whether it is a regular file. */
  datatype Entry = Entry(name: string, isFile: bool)

  predicate IsSpreadsheet(e: Entry)
  {
    e.isFile && (EndsWith(e.name, "xlsx") || EndsWith(e.name, "xlsm") || EndsWith(e.name, "xls"))
  }

  /** from_subject_folder: the first listed file whose name ends with
      xlsx, xlsm or xls. */
  method FromSubjectFolder(items: seq<Entry>) returns (r: Option<string>)
    ensures r.None? <==> forall i :: 0 <= i < |items| ==> !IsSpreadsheet(items[i])
    ensures r.Some? ==> exists i :: 0 <= i < |items| && IsSpreadsheet(items[i]) && items[i].name == r.value
                                    && forall k :: 0 <= k < i ==> !IsSpreadsheet(items[k])
  {
    var i := 0;
    while i < |items|
      invariant 0 <= i <= |items|
      invariant forall k :: 0 <= k < i ==> !IsSpreadsheet(items[k])
    {
      if IsSpreadsheet(items[i]) {
        return Some(items[i].name);
      }
      i := i + 1;
    }
    return None;
  }

  // ------------------------------------------------------------ properties

  /** A deadline part that is empty or 0 becomes -1 and refuses the
      file once the other parts convert. */
  lemma MissingDeadlinePart(ws: Sheet)
    requires DatePart(At(ws, 9, ColB)).Ok? && DatePart(At(ws, 9, ColC)).Ok? && DatePart(At(ws, 9, ColD)).Ok?
    requires !Truthy(At(ws, 9, ColB)) || !Truthy(At(ws, 9, ColC)) || !Truthy(At(ws, 9, ColD))
    ensures Deadline(ws) == Err(BadDeadline)
  {
  }

  /** A deadline read from the sheet is a real calendar date built from
      the three parts. */
  lemma DeadlineIsDate(ws: Sheet)
    requires Deadline(ws).Ok?
    ensures ValidDate(Deadline(ws).value)
    ensures var d := Deadline(ws).value;
            DatePart(At(ws, 9, ColB)) == Ok(d.day) && DatePart(At(ws, 9, ColC)) == Ok(d.month)
            && DatePart(At(ws, 9, ColD)) == Ok(d.year)
  {
  }

  /** The login has no spaces; two text parts without spaces are simply
      joined. */
  lemma LoginJoinsParts(ws: Sheet)
    ensures Login(ws).Ok? ==> ' ' !in Login(ws).value
    ensures At(ws, 11, ColB).Text? && At(ws, 11, ColC).Text? ==>
              var a, b := At(ws, 11, ColB).s, At(ws, 11, ColC).s;
              ' ' !in a + b ==> Login(ws) == Ok(a + b)
  {
    if At(ws, 11, ColB).Text? && At(ws, 11, ColC).Text? {
      var a, b := At(ws, 11, ColB).s, At(ws, 11, ColC).s;
      if ' ' !in a + b {
        DeleteCharAbsent(a + b, ' ');
      }
    }
  }

  /** While the loop runs the values never decrease from 0, so the count
      is never negative and never above the last accepted value. */
  lemma {:induction false} CountNotAboveLast(ws: Sheet, row: int)
    requires CountFirstRow <= row
    requires forall k :: CountFirstRow <= k < row ==> Continues(ws, k)
    ensures 0.0 <= PrevValue(ws, row)
    ensures 0.0 <= CountAt(ws, row) <= PrevValue(ws, row)
    decreases row
  {
    if row > CountFirstRow {
      CountNotAboveLast(ws, row - 1);
      assert Continues(ws, row - 1);
    }
  }

  /** Exercise numbers 1, 2 and then an empty cell count as 1. */
  lemma CountUndercounts(ws: Sheet)
    requires At(ws, 16, ColA) == Int(1) && At(ws, 17, ColA) == Int(2) && At(ws, 18, ColA) == Empty
    ensures CountStop(ws, CountFirstRow) == 18
    ensures CountAt(ws, CountStop(ws, CountFirstRow)) == 1.0
  {
    assert Continues(ws, 16);
    assert Continues(ws, 17);
    assert !Continues(ws, 18);
  }
}
