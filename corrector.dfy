/** The corrector file of the current package (pycor/excel.py, class
    Corrector): the header cells are read and checked once, or taken from
    the saved state when the file has not changed, and for every student
    the answer key is read off the recomputed sheet. */
module CorrectorSheet {
  import opened Wrappers
  import opened Text
  import opened Cells
  import opened Worksheet

  /** One row of the answer key: the name (column B), the expected value
      (C), the relative tolerance (D) and the absolute tolerance (E). */
  datatype KeyEntry = KeyEntry(name: Cell, value: Cell, rel: Cell, abs: Cell)

  /** The fields of a corrector, as the saved state keeps them. */
  datatype Header = Header(
    title: Cell, codename: string, deadline: Cell, maxAttempts: int,
    ranges: seq<Range>, dummyCount: int)

  /** Why a corrector file is refused, in the order of the checks. */
  datatype Reason =
    | NoTitle            // B1 is empty
    | BadDummyCount      // C7 is set but str(C7) is not numeric
    | NoCodename         // B2 is empty
    | Unreadable         // int() or float() raised TypeError or ValueError
    | BadExercises       // set_exercise_rows raised ExcelFileException
    | BadDeadline        // B3 is not a date and time
    | BadAttemptCount    // fewer than one attempt
    | NoExercises        // column A holds no exercise

  /** Ready to grade; Expired: the deadline has passed, which is ignored
      without an error; Rejected: the file has an error. */
  datatype Status = Ready | Expired | Rejected(reason: Reason)

  const DefaultDummyCount := 8

  /** str.isnumeric() on ASCII text. */
  predicate IsNumeric(s: string)
  {
    |s| > 0 && AllDigits(s)
  }

  /** The number of dummy values from C7: 8 when C7 is empty. A set C7
      must print as digits; the range check that follows tests the
      default 8 instead of the parsed number, so it never fails. */
  function DummyCount(c7: Cell): Result<int, Reason>
  {
    if !Truthy(c7) then Ok(DefaultDummyCount)
    else if !IsNumeric(Str(c7)) || DefaultDummyCount < 0 || DefaultDummyCount > 100 then Err(BadDummyCount)
    else match ToInt(c7)
      case Ok(n) => Ok(n)
      case Err(_) => Err(Unreadable)
  }

  /** The codename from B2: every ".xlsx" removed in one pass (only when
      there is one) and the surrounding whitespace stripped. */
  function Codename(b2: Cell): Result<string, Reason>
  {
    if !Truthy(b2) then Err(NoCodename)
    else
      var name := if Contains(Str(b2), ".xlsx") then RemoveAll(Str(b2), ".xlsx") else Str(b2);
      Ok(Strip(name))
  }

  /** int(B4 or 0). */
  function MaxAttempts(b4: Cell): Result<int, Reason>
  {
    if !Truthy(b4) then Ok(0)
    else match ToInt(b4)
      case Ok(n) => Ok(n)
      case Err(_) => Err(Unreadable)
  }

  /** The header cells read before the exercise scan. */
  datatype Fields = Fields(title: Cell, dummyCount: int, codename: string, deadline: Cell, maxAttempts: int)

  /** Reading B1, C7, B2, B3 and B4, in the order of the source. */
  function ReadFields(ws: Sheet): Result<Fields, Reason>
  {
    var title := At(ws, 1, ColB);
    if !Truthy(title) then Err(NoTitle)
    else match DummyCount(At(ws, 7, ColC))
      case Err(e) => Err(e)
      case Ok(dummies) =>
        match Codename(At(ws, 2, ColB))
        case Err(e) => Err(e)
        case Ok(codename) =>
          match MaxAttempts(At(ws, 4, ColB))
          case Err(e) => Err(e)
          case Ok(attempts) => Ok(Fields(title, dummies, codename, At(ws, 3, ColB), attempts))
  }

  /** The checks made on every load, cached or not: the deadline must be
      a date and time, on or after today (an expired corrector is
      ignored), at least one attempt, at least one exercise. */
  function Validate(h: Header, today: Date): Status
  {
    if !h.deadline.When? then Rejected(BadDeadline)
    else if DateBefore(h.deadline.date, today) then Expired
    else if h.maxAttempts < 1 then Rejected(BadAttemptCount)
    else if |h.ranges| == 0 then Rejected(NoExercises)
    else Ready
  }

  /** What a failing exercise row means for the corrector: its
      ExcelFileException is reported as such, the TypeError it raises is
      caught as an unreadable file. */
  function ScanReason(f: Fault): Reason
  {
    if f == ExcelFileError then BadExercises else Unreadable
  }

  /** Corrector.__init__ up to setting `valid`: a saved state with an
      unchanged file replaces the reading of the sheet; otherwise the
      header cells and the exercise rows are read, and either way the
      common checks decide. On a rejected file the header is left as far
      as it was read. */
  method Load(ws: Sheet, today: Date, saved: Option<Header>) returns (h: Header, status: Status)
    ensures saved.Some? ==> h == saved.value && status == Validate(h, today)
    ensures saved.None? && ReadFields(ws).Err? ==> status == Rejected(ReadFields(ws).error)
    ensures saved.None? && ReadFields(ws).Ok? ==>
              var f := ReadFields(ws);
              var first := FirstRow(Current);
              var stop := StopRow(Current, ws, first);
              && h.title == f.value.title && h.dummyCount == f.value.dummyCount
              && h.codename == f.value.codename && h.deadline == f.value.deadline
              && h.maxAttempts == f.value.maxAttempts
              && (RowsPass(Current, ws, false, first, stop) ==>
                    && Tiles(h.ranges, first, stop) && SplitAtStarts(Current, ws, h.ranges)
                    && status == Validate(h, today))
              && (!RowsPass(Current, ws, false, first, stop) ==>
                    exists row :: first <= row < stop && RowsPass(Current, ws, false, first, row)
                                  && RowFault(Current, ws, row, false).Some?
                                  && status == Rejected(ScanReason(RowFault(Current, ws, row, false).value)))
  {
    h := Header(Empty, "", Empty, 0, [], DefaultDummyCount);
    if saved.Some? {
      h := saved.value;
    } else {
      var title := At(ws, 1, ColB);
      if !Truthy(title) {
        return h, Rejected(NoTitle);
      }
      h := h.(title := title);
      var dummies := DummyCount(At(ws, 7, ColC));
      if dummies.Err? {
        return h, Rejected(dummies.error);
      }
      h := h.(dummyCount := dummies.value);
      var codename := Codename(At(ws, 2, ColB));
      if codename.Err? {
        return h, Rejected(codename.error);
      }
      h := h.(codename := codename.value, deadline := At(ws, 3, ColB));
      var attempts := MaxAttempts(At(ws, 4, ColB));
      if attempts.Err? {
        return h, Rejected(attempts.error);
      }
      h := h.(maxAttempts := attempts.value);
      var scan := SetExerciseRows(ws, false);
      if scan.Err? {
        return h, Rejected(ScanReason(scan.error.fault));
      }
      h := h.(ranges := scan.value.ranges);
    }
    status := Validate(h, today);
  }

  /** Number of rows of a range, as range(first, last + 1) counts them. */
  function RangeLength(r: Range): nat
  {
    if r.last < r.first then 0 else r.last - r.first + 1
  }

  /** The answer-key row `row` of a recomputed sheet. */
  function EntryAt(sheet: Sheet, row: int): KeyEntry
  {
    KeyEntry(At(sheet, row, ColB), At(sheet, row, ColC), At(sheet, row, ColD), At(sheet, row, ColE))
  }

  class Corrector {
    var title: Cell
    var codename: string
    var deadline: Cell
    var maxAttempts: int
    var ranges: seq<Range>
    var dummyCount: int
    var status: Status
    /** Whether the corrector is used for grading. */
    var valid: bool

    /** Corrector(excel_file), with the file's first sheet, today's date
        and the saved state when the file is unchanged since it was
        saved. */
    constructor (ws: Sheet, today: Date, saved: Option<Header>)
      ensures valid <==> status == Ready
      ensures saved.Some? ==>
                && Header(title, codename, deadline, maxAttempts, ranges, dummyCount) == saved.value
                && status == Validate(saved.value, today)
      ensures saved.None? && ReadFields(ws).Err? ==> status == Rejected(ReadFields(ws).error)
      ensures saved.None? && ReadFields(ws).Ok? ==>
                var f := ReadFields(ws).value;
                title == f.title && dummyCount == f.dummyCount && codename == f.codename
                && deadline == f.deadline && maxAttempts == f.maxAttempts
      ensures saved.None? && ReadFields(ws).Ok? ==>
                var first := FirstRow(Current);
                var stop := StopRow(Current, ws, first);
                && (RowsPass(Current, ws, false, first, stop) ==>
                      && Tiles(ranges, first, stop) && SplitAtStarts(Current, ws, ranges)
                      && status == Validate(Header(title, codename, deadline, maxAttempts, ranges, dummyCount), today))
                && (!RowsPass(Current, ws, false, first, stop) ==>
                      exists row :: first <= row < stop && RowsPass(Current, ws, false, first, row)
                                    && RowFault(Current, ws, row, false).Some?
                                    && status == Rejected(ScanReason(RowFault(Current, ws, row, false).value)))
      ensures valid ==> maxAttempts >= 1 && |ranges| > 0 && deadline.When? && !DateBefore(deadline.date, today)
    {
      var h, st := Load(ws, today, saved);
      title := h.title;
      codename := h.codename;
      deadline := h.deadline;
      maxAttempts := h.maxAttempts;
      ranges := h.ranges;
      dummyCount := h.dummyCount;
      status := st;
      valid := st == Ready;
    }

    /** generate_solutions: `evaluate` stands for writing the
        matriculation number and the dummy values into the corrector and
        letting the spreadsheet recompute it; the key then holds, per
        exercise range, one entry per row from columns B to E. */
    method GenerateSolutions(evaluate: (int, seq<Cell>) -> Sheet, matNum: int, dummies: seq<Cell>)
      returns (key: seq<seq<KeyEntry>>)
      ensures |key| == |ranges|
      ensures forall i :: 0 <= i < |ranges| ==>
                |key[i]| == RangeLength(ranges[i])
                && forall k :: 0 <= k < |key[i]| ==> key[i][k] == EntryAt(evaluate(matNum, dummies), ranges[i].first + k)
    {
      var sheet := evaluate(matNum, dummies);
      key := [];
      var idx := 0;
      while idx < |ranges|
        invariant 0 <= idx <= |ranges|
        invariant |key| == idx
        invariant forall i :: 0 <= i < idx ==>
                    |key[i]| == RangeLength(ranges[i])
                    && forall k :: 0 <= k < |key[i]| ==> key[i][k] == EntryAt(sheet, ranges[i].first + k)
      {
        var rows := ReadRange(sheet, ranges[idx]);
        key := key + [rows];
        idx := idx + 1;
      }
    }
  }

  /** The key entries of the rows first .. last of one range. */
  method ReadRange(sheet: Sheet, r: Range) returns (rows: seq<KeyEntry>)
    ensures |rows| == RangeLength(r)
    ensures forall k :: 0 <= k < |rows| ==> rows[k] == EntryAt(sheet, r.first + k)
  {
    rows := [];
    var cell := r.first;
    while cell < r.last + 1
      invariant r.first <= cell && (r.last < r.first ==> cell == r.first)
      invariant r.first <= r.last ==> cell <= r.last + 1
      invariant |rows| == cell - r.first
      invariant forall k :: 0 <= k < |rows| ==> rows[k] == EntryAt(sheet, r.first + k)
    {
      rows := rows + [EntryAt(sheet, cell)];
      cell := cell + 1;
    }
  }

  // ------------------------------------------------------------ properties

  /** Every positive int in C7 is taken as the dummy count, also above
      100, since the range check looks at the default; a negative one is
      refused because its text starts with a minus sign. */
  lemma DummyCountOfInt(n: int)
    ensures n >= 1 ==> DummyCount(Int(n)) == Ok(n)
    ensures n < 0 ==> DummyCount(Int(n)) == Err(BadDummyCount)
    ensures n == 0 ==> DummyCount(Int(n)) == Ok(DefaultDummyCount)
  {
    if n < 0 {
      assert Str(Int(n))[0] == '-';
    }
  }

  /** The codename is the stripped text of B2 with ".xlsx" removed once;
      nothing at either end is whitespace. */
  lemma CodenameIsCleaned(b2: Cell)
    requires Codename(b2).Ok?
    ensures Codename(b2).value == Strip(RemoveAll(Str(b2), ".xlsx"))
    ensures IsStripped(Codename(b2).value)
  {
    if !Contains(Str(b2), ".xlsx") {
      RemoveAllAbsent(Str(b2), ".xlsx");
    }
    StripResult(RemoveAll(Str(b2), ".xlsx"));
  }

  /** A codename entered as a file name gets its ending removed. */
  lemma CodenameOfFileName(name: string)
    requires !Contains(name, ".xlsx")
    ensures Codename(Text(name + ".xlsx")) == Ok(Strip(name))
  {
    XlsxBorderFree();
    RemoveAllAppended(name, ".xlsx");
    ContainsAt(name + ".xlsx", ".xlsx", |name|);
  }

  /** replace() makes one pass: removing ".xlsx" from ".x.xlsxlsx" joins
      the remains into a new ".xlsx", which the codename keeps. */
  lemma CodenameSinglePass()
    ensures Codename(Text(".x.xlsxlsx")) == Ok(".xlsx")
  {
    RemoveAllSinglePass();
  }

  /** A same-day deadline is accepted; a deadline a day earlier is not. */
  lemma SameDayDeadline(h: Header, today: Date)
    requires h.maxAttempts >= 1 && |h.ranges| > 0
    ensures h.deadline.When? && h.deadline.date == today ==> Validate(h, today) == Ready
    ensures h.deadline.When? && DateBefore(h.deadline.date, today) ==> Validate(h, today) == Expired
  {
  }

  /** A corrector is ready exactly when the deadline is a date not before
      today, at least one attempt is allowed and there is an exercise. */
  lemma ReadyIff(h: Header, today: Date)
    ensures Validate(h, today) == Ready <==>
              h.deadline.When? && !DateBefore(h.deadline.date, today) && h.maxAttempts >= 1 && |h.ranges| > 0
  {
  }

  /** A corrector read from the sheet is refused without a title or a
      codename, and with a title, a good C7, a codename and an empty B4 it
      has zero attempts, so it is never ready. */
  lemma ReadFieldsRefusals(ws: Sheet)
    ensures !Truthy(At(ws, 1, ColB)) ==> ReadFields(ws) == Err(NoTitle)
    ensures Truthy(At(ws, 1, ColB)) && DummyCount(At(ws, 7, ColC)).Ok? && !Truthy(At(ws, 2, ColB)) ==>
              ReadFields(ws) == Err(NoCodename)
    ensures ReadFields(ws).Ok? && !Truthy(At(ws, 4, ColB)) ==> ReadFields(ws).value.maxAttempts == 0
  {
  }
}
