/** The Teil scans of the first generation (a Python 2 script driving the
    spreadsheet program): column A is read from row 16 while the value
    rises or stays equal in Python 2's mixed-type order, where a text lies
    above every number; every rise opens a Teil (a part, i.e. an
    exercise). Rows are reported as labels "A<row>". Then which Teile a
    student filled in: check_allNone and exercise_check_submitted. */
module LegacySheet {
  import opened Wrappers
  import opened Text
  import opened Cells

  const TeilFirstRow := 16

  /** cell_previous when the scan reaches `row`: 0 at the first row,
      afterwards the column-A cell of the row above. */
  function TeilPrev(ws: Sheet, row: int): Cell
  {
    if row <= TeilFirstRow then Int(0) else At(ws, row - 1, ColA)
  }

  /** How a row's column-A cell compares with cell_previous; None where
      the comparison raises TypeError. */
  function TeilOrder(ws: Sheet, row: int): Option<int>
  {
    Py2Order(At(ws, row, ColA), TeilPrev(ws, row))
  }

  /** A row the scan takes: its cell is at least the previous one. */
  predicate Taken(ws: Sheet, row: int)
  {
    TeilOrder(ws, row) == Some(0) || TeilOrder(ws, row) == Some(1)
  }

  /** A row that opens a Teil: its cell is above the previous one. */
  predicate Opens(ws: Sheet, row: int)
  {
    TeilOrder(ws, row) == Some(1)
  }

  /** A taken row holds a value, so the scan never takes an empty row:
      below the filled area it stops. */
  lemma TakenIsFilled(ws: Sheet, row: int)
    requires !TeilPrev(ws, row).Empty? && Taken(ws, row)
    ensures !At(ws, row, ColA).Empty? && row <= |ws|
  {
  }

  /** Python 2 order in the scan: a text after a number opens a Teil, a
      number after a text ends the scan, and a date after anything but a
      date raises. */
  lemma TextAndDateRows(ws: Sheet, row: int)
    requires row > TeilFirstRow
    ensures NumOf(TeilPrev(ws, row)).Some? && At(ws, row, ColA).Text? ==> Opens(ws, row)
    ensures TeilPrev(ws, row).Text? && NumOf(At(ws, row, ColA)).Some? ==> !Taken(ws, row)
    ensures !TeilPrev(ws, row).When? && At(ws, row, ColA).When? ==> TeilOrder(ws, row).None?
  {
    Py2OrderFacts(At(ws, row, ColA), TeilPrev(ws, row));
    Py2OrderFacts(TeilPrev(ws, row), At(ws, row, ColA));
  }

  /** The first row at or below `from` the scan does not take. */
  function TeilStop(ws: Sheet, from: int): (r: int)
    requires from >= TeilFirstRow && !TeilPrev(ws, from).Empty?
    ensures r >= from && !Taken(ws, r)
    ensures forall row :: from <= row < r ==> Taken(ws, row)
    decreases |ws| + 1 - from
  {
    if !Taken(ws, from) then from
    else
      TakenIsFilled(ws, from);
      TeilStop(ws, from + 1)
  }

  /** The rows above `row` that open a Teil. */
  function OpenRows(ws: Sheet, row: int): (r: seq<int>)
    ensures forall i :: 0 <= i < |r| ==> TeilFirstRow <= r[i] < row && Opens(ws, r[i])
    ensures forall i, j :: 0 <= i < j < |r| ==> r[i] < r[j]
    decreases row - TeilFirstRow
  {
    if row <= TeilFirstRow then []
    else OpenRows(ws, row - 1) + (if Opens(ws, row - 1) then [row - 1] else [])
  }

  /** The cell label "A<row>". */
  function Label(row: nat): string
  {
    "A" + NatToString(row)
  }

  function Labels(rows: seq<int>): (r: seq<string>)
    requires forall i :: 0 <= i < |rows| ==> rows[i] >= 0
    ensures |r| == |rows|
  {
    seq(|rows|, i requires 0 <= i < |rows| => Label(rows[i]))
  }

  /** The last row of each Teil: the row before the next opening row, and
      the row before the stop row for the last Teil. */
  function CloseRows(opens: seq<int>, stop: int): (r: seq<int>)
    ensures |r| == |opens|
  {
    seq(|opens|, i requires 0 <= i < |opens| => if i + 1 < |opens| then opens[i + 1] - 1 else stop - 1)
  }

  /** The column values of the rows from .. to - 1. */
  function ColumnRange(ws: Sheet, col: int, from: int, to: int): (r: seq<Cell>)
    ensures |r| == if to >= from then to - from else 0
    ensures forall k :: 0 <= k < |r| ==> r[k] == At(ws, from + k, col)
  {
    if to <= from then [] else seq(to - from, k requires 0 <= k < to - from => At(ws, from + k, col))
  }

  /** What the three Teil scans collect: the opening labels, the closing
      labels, and per taken row the column-A value, str() of column B,
      column C and column D; TotalTeils is cell_previous at the last taken
      row, unbound (None) when no row was taken. */
  datatype TeilScan = TeilScan(
    init: seq<string>, end: seq<string>,
    teil: seq<Cell>, names: seq<string>, solutions: seq<Cell>, cerror: seq<Cell>,
    totalTeils: Option<Cell>)

  /** The Teil scan; None when comparing the stop row's cell raises. */
  method ScanTeils(ws: Sheet) returns (r: Option<TeilScan>)
    ensures r.None? <==> TeilOrder(ws, TeilStop(ws, TeilFirstRow)).None?
    ensures r.Some? ==>
            var t := r.value;
            var stop := TeilStop(ws, TeilFirstRow);
            var opens := OpenRows(ws, stop);
            && t.init == Labels(opens)
            && t.end == Labels(CloseRows(opens, stop))
            && t.teil == ColumnRange(ws, ColA, TeilFirstRow, stop)
            && |t.names| == stop - TeilFirstRow
            && (forall k :: 0 <= k < |t.names| ==> t.names[k] == Str(At(ws, TeilFirstRow + k, ColB)))
            && t.solutions == ColumnRange(ws, ColC, TeilFirstRow, stop)
            && t.cerror == ColumnRange(ws, ColD, TeilFirstRow, stop)
            && t.totalTeils == if stop == TeilFirstRow then None else Some(TeilPrev(ws, stop - 1))
  {
    ghost var stop := TeilStop(ws, TeilFirstRow);
    var index := TeilFirstRow;
    var previous := Int(0);
    var init: seq<string> := [];
    var end: seq<string> := [];
    var teil: seq<Cell> := [];
    var names: seq<string> := [];
    var solutions: seq<Cell> := [];
    var cerror: seq<Cell> := [];
    var totalTeils: Option<Cell> := None;
    ghost var opens: seq<int> := [];
    while true
      invariant TeilFirstRow <= index <= stop
      invariant previous == TeilPrev(ws, index)
      invariant opens == OpenRows(ws, index)
      invariant init == Labels(opens)
      invariant end == Labels(RowsBefore(opens))
      invariant Collected(ws, index, teil, names, solutions, cerror)
      invariant totalTeils == if index == TeilFirstRow then None else Some(TeilPrev(ws, index - 1))
      decreases stop - index
    {
      var active := At(ws, index, ColA);
      var order := Py2Order(active, previous);
      if order.None? {
        assert !Taken(ws, index);
        return None;
      }
      if order.value == 1 {
        init, end := OpenTeil(opens, index, init, end);
        opens := opens + [index];
      } else if order.value == 0 {
      } else {
        assert !Taken(ws, index);
        assert index == stop;
        end := CloseLastTeil(opens, index, end);
        break;
      }
      teil, names, solutions, cerror := TakeRow(ws, index, teil, names, solutions, cerror);
      totalTeils := Some(previous);
      previous := active;
      index := index + 1;
    }
    r := Some(TeilScan(init, end, teil, names, solutions, cerror, totalTeils));
  }

  /** The columns of the taken rows TeilFirstRow .. row - 1: column A,
      str() of column B, column C and column D. */
  predicate Collected(ws: Sheet, row: int, teil: seq<Cell>, names: seq<string>, solutions: seq<Cell>, cerror: seq<Cell>)
  {
    && teil == ColumnRange(ws, ColA, TeilFirstRow, row)
    && |names| == row - TeilFirstRow
    && (forall k :: 0 <= k < |names| ==> names[k] == Str(At(ws, TeilFirstRow + k, ColB)))
    && solutions == ColumnRange(ws, ColC, TeilFirstRow, row)
    && cerror == ColumnRange(ws, ColD, TeilFirstRow, row)
  }

  /** A taken row appends its four cells to the four lists. */
  method TakeRow(ws: Sheet, row: int, teil: seq<Cell>, names: seq<string>, solutions: seq<Cell>, cerror: seq<Cell>)
    returns (teil': seq<Cell>, names': seq<string>, solutions': seq<Cell>, cerror': seq<Cell>)
    requires row >= TeilFirstRow && Collected(ws, row, teil, names, solutions, cerror)
    ensures Collected(ws, row + 1, teil', names', solutions', cerror')
  {
    ColumnRangeStep(ws, ColA, row);
    ColumnRangeStep(ws, ColC, row);
    ColumnRangeStep(ws, ColD, row);
    teil' := teil + [At(ws, row, ColA)];
    names' := names + [Str(At(ws, row, ColB))];
    solutions' := solutions + [At(ws, row, ColC)];
    cerror' := cerror + [At(ws, row, ColD)];
  }

  /** A row that opens a Teil: its label joins init and the label of
      the row above joins end. */
  method OpenTeil(ghost opens: seq<int>, row: int, init: seq<string>, end: seq<string>)
    returns (init': seq<string>, end': seq<string>)
    requires forall i :: 0 <= i < |opens| ==> opens[i] >= TeilFirstRow
    requires row >= TeilFirstRow
    requires init == Labels(opens) && end == Labels(RowsBefore(opens))
    ensures init' == Labels(opens + [row]) && end' == Labels(RowsBefore(opens + [row]))
  {
    OpenStep(opens, row);
    init' := init + [Label(row)];
    end' := end + [Label(row - 1)];
  }

  /** The row that stops the scan: the label of the row above joins end,
      whose first entry is then dropped. */
  method CloseLastTeil(ghost opens: seq<int>, stop: int, end: seq<string>) returns (end': seq<string>)
    requires forall i :: 0 <= i < |opens| ==> opens[i] >= TeilFirstRow
    requires stop >= TeilFirstRow
    requires end == Labels(RowsBefore(opens))
    ensures end' == Labels(CloseRows(opens, stop))
  {
    ClosingLabels(opens, stop);
    end' := end + [Label(stop - 1)];
    end' := end'[1..];
  }

  /** The row before each row. */
  function RowsBefore(rows: seq<int>): (r: seq<int>)
    ensures |r| == |rows|
    ensures forall i :: 0 <= i < |rows| ==> r[i] == rows[i] - 1
  {
    seq(|rows|, i requires 0 <= i < |rows| => rows[i] - 1)
  }

  /** A new opening row adds its label to the opening labels and the
      label of the row before it to the closing ones. */
  lemma OpenStep(opens: seq<int>, row: int)
    requires forall i :: 0 <= i < |opens| ==> opens[i] >= TeilFirstRow
    requires row >= TeilFirstRow
    ensures Labels(opens + [row]) == Labels(opens) + [Label(row)]
    ensures Labels(RowsBefore(opens + [row])) == Labels(RowsBefore(opens)) + [Label(row - 1)]
  {
    var before := RowsBefore(opens);
    assert RowsBefore(opens + [row]) == before + [row - 1];
    forall i | 0 <= i <= |opens|
      ensures Labels(opens + [row])[i] == (Labels(opens) + [Label(row)])[i]
      ensures Labels(before + [row - 1])[i] == (Labels(before) + [Label(row - 1)])[i]
    {
    }
  }

  lemma ColumnRangeStep(ws: Sheet, col: int, row: int)
    requires row >= TeilFirstRow
    ensures ColumnRange(ws, col, TeilFirstRow, row + 1) == ColumnRange(ws, col, TeilFirstRow, row) + [At(ws, row, col)]
  {
  }

  /** The closing labels as the scan builds them: one per opening row,
      then the stop, with the first dropped. */
  lemma ClosingLabels(opens: seq<int>, stop: int)
    requires forall i :: 0 <= i < |opens| ==> opens[i] >= 1
    requires stop >= 1
    ensures (Labels(RowsBefore(opens)) + [Label(stop - 1)])[1..]
            == Labels(CloseRows(opens, stop))
  {
  }

  /** check_allNone: 1 when no entry is filled in. */
  predicate AllNone(xs: seq<Cell>)
  {
    forall i :: 0 <= i < |xs| ==> xs[i].Empty?
  }

  method CheckAllNone(xs: seq<Cell>) returns (flag: int)
    ensures flag == 1 <==> AllNone(xs)
    ensures flag == 0 <==> !AllNone(xs)
  {
    flag := 1;
    for i := 0 to |xs|
      invariant flag == 1 <==> AllNone(xs[..i])
      invariant flag == 0 || flag == 1
    {
      if xs[i] != Empty {
        flag := 0;
      }
    }
    assert xs[..|xs|] == xs;
  }

  /** A Python slice index: negative counts from the end, and both ends
      are clamped to the sequence. */
  function SliceIndex(i: int, n: nat): (r: nat)
    ensures r <= n
  {
    if i < 0 then (if i + n < 0 then 0 else i + n) else if i > n then n else i
  }

  /** s[a:b] in Python. */
  function PySlice<T>(s: seq<T>, a: int, b: int): seq<T>
  {
    var lo, hi := SliceIndex(a, |s|), SliceIndex(b, |s|);
    if lo < hi then s[lo..hi] else []
  }

  /** int(label[1:]). */
  function LabelNumber(text: string): Option<int>
  {
    ParseInt2(if |text| > 0 then text[1..] else "")
  }

  /** The entries of Teil i: the slice between its shifted bounds. */
  function TeilEntries(solutions: seq<Cell>, initRow: int, endRow: int, offset: int): seq<Cell>
  {
    PySlice(solutions, initRow - offset, endRow - offset + 1)
  }

  /** int(label[1:]) of every label; None where Python raises. */
  function LabelRows(labels: seq<string>): (r: seq<Option<int>>)
    ensures |r| == |labels|
  {
    seq(|labels|, i requires 0 <= i < |labels| => LabelNumber(labels[i]))
  }

  /** Whether the first n conversions succeed. */
  function Parses(rows: seq<Option<int>>, n: nat): bool
    requires n <= |rows|
  {
    n == 0 || (Parses(rows, n - 1) && rows[n - 1].Some?)
  }

  /** The values of the first n conversions. */
  function Rows(rows: seq<Option<int>>, n: nat): (r: seq<int>)
    requires n <= |rows| && Parses(rows, n)
    ensures |r| == n
  {
    if n == 0 then [] else Rows(rows, n - 1) + [rows[n - 1].value]
  }

  /** exercise_check_submitted: the indices (ascending) of the Teile with
      at least one entry filled in, their bounds read back from the labels
      and shifted by the first opening row. None stands for the exception
      Python raises on an empty or unparsable label list, or a missing
      closing label. */
  method ExerciseCheckSubmitted(init: seq<string>, end: seq<string>, solutions: seq<Cell>) returns (r: Option<seq<nat>>)
    ensures r.Some? <==> 0 < |init| <= |end| && Parses(LabelRows(init), |init|) && Parses(LabelRows(end), |init|)
    ensures r.Some? ==>
              var starts, ends := Rows(LabelRows(init), |init|), Rows(LabelRows(end), |init|);
              && (forall k :: 0 <= k < |r.value| ==> r.value[k] < |init|)
              && (forall k, l :: 0 <= k < l < |r.value| ==> r.value[k] < r.value[l])
              && (forall i :: 0 <= i < |init| ==>
                    (i in r.value <==> !AllNone(TeilEntries(solutions, starts[i], ends[i], starts[0]))))
  {
    var bounds := ReadBounds(init, end);
    if bounds.None? {
      return None;
    }
    var (starts, ends) := bounds.value;
    var submitted := SubmittedTeile(starts, ends, starts[0], solutions);
    r := Some(submitted);
  }

  /** The loop of exercise_check_submitted over the shifted bounds. */
  method SubmittedTeile(starts: seq<int>, ends: seq<int>, offset: int, solutions: seq<Cell>) returns (submitted: seq<nat>)
    requires |ends| == |starts|
    ensures forall k :: 0 <= k < |submitted| ==> submitted[k] < |starts|
    ensures forall k, l :: 0 <= k < l < |submitted| ==> submitted[k] < submitted[l]
    ensures forall i :: 0 <= i < |starts| ==>
              (i in submitted <==> !AllNone(TeilEntries(solutions, starts[i], ends[i], offset)))
  {
    submitted := [];
    for i := 0 to |starts|
      invariant forall k :: 0 <= k < |submitted| ==> submitted[k] < i
      invariant forall k, l :: 0 <= k < l < |submitted| ==> submitted[k] < submitted[l]
      invariant forall j :: 0 <= j < i ==>
                  (j in submitted <==> !AllNone(TeilEntries(solutions, starts[j], ends[j], offset)))
    {
      var flag := CheckAllNone(PySlice(solutions, starts[i] - offset, ends[i] - offset + 1));
      if flag == 0 {
        submitted := submitted + [i];
      }
    }
  }

  /** The conversion of every label to its row, int(label[1:]), opening
      and closing label in turn; None stands for the exception of an
      unparsable label or of a missing closing label, and of an empty list
      (TeilInit[0]). */
  method ReadBounds(init: seq<string>, end: seq<string>) returns (r: Option<(seq<int>, seq<int>)>)
    ensures r.Some? <==> 0 < |init| <= |end| && Parses(LabelRows(init), |init|) && Parses(LabelRows(end), |init|)
    ensures r.Some? ==> r.value == (Rows(LabelRows(init), |init|), Rows(LabelRows(end), |init|))
  {
    ghost var initRows, endRows := LabelRows(init), LabelRows(end);
    var starts: seq<int> := [];
    var ends: seq<int> := [];
    for i := 0 to |init|
      invariant i <= |end| && Parses(initRows, i) && Parses(endRows, i)
      invariant starts == Rows(initRows, i) && ends == Rows(endRows, i)
    {
      var a := LabelNumber(init[i]);
      assert a == initRows[i];
      if a.None? {
        ParsesFails(initRows, i + 1, |init|);
        return None;
      }
      if i >= |end| {
        return None;
      }
      var b := LabelNumber(end[i]);
      assert b == endRows[i];
      if b.None? {
        if |init| <= |end| {
          ParsesFails(endRows, i + 1, |init|);
        }
        return None;
      }
      starts := starts + [a.value];
      ends := ends + [b.value];
    }
    if |init| == 0 {
      return None;
    }
    r := Some((starts, ends));
  }

  /** A failed conversion fails every longer prefix. */
  lemma {:induction false} ParsesFails(rows: seq<Option<int>>, m: nat, n: nat)
    requires m <= n <= |rows| && !Parses(rows, m)
    ensures !Parses(rows, n)
    decreases n - m
  {
    if m < n {
      ParsesFails(rows, m, n - 1);
    }
  }

  // ------------------------------------------------------------ properties

  /** Parses says every conversion succeeds, and Rows lists their values
      in order. */
  lemma {:induction false} RowsAreValues(rows: seq<Option<int>>, n: nat)
    requires n <= |rows|
    ensures Parses(rows, n) <==> forall i :: 0 <= i < n ==> rows[i].Some?
    ensures Parses(rows, n) ==> forall i :: 0 <= i < n ==> rows[i] == Some(Rows(rows, n)[i])
  {
    if n > 0 {
      RowsAreValues(rows, n - 1);
    }
  }

  /** A label reads back as its row. */
  lemma LabelRoundTrip(row: nat)
    ensures LabelNumber(Label(row)) == Some(row)
  {
    assert Label(row)[1..] == NatToString(row);
    ParseNumbersRoundTrip(row);
  }

  // ------------------------------------------------- corrector_checkout

  /** The four flags of corrector_checkout and the login it built. */
  datatype Checkout = Checkout(subject: int, deadline: int, login: int, trials: int, all: int, usn: string)

  /** TrialsMax >= 1 under Python 2 ordering: None is below every number,
      a text above every number; comparing a date (or any other object)
      with an int raises. */
  function AtLeastOne(c: Cell): (r: Option<bool>)
    ensures c.Empty? ==> r == Some(false)
    ensures c.Text? ==> r == Some(true)
    ensures NumOf(c).Some? ==> r == Some(NumOf(c).value >= 1.0)
    ensures c.When? || c.Other? ==> r.None?
  {
    Py2OrderFacts(c, Int(1));
    match Py2Order(c, Int(1))
    case None => None
    case Some(o) => Some(o >= 0)
  }

  /** corrector_checkout with today's date and `canLogin` standing for
      the e-mail login. int() of D9, C9 and B9 and the text concatenation
      B11 + C11 raise on anything else than numbers and texts (None). The
      deadline flag compares (year, month, day) lexicographically with
      today, same day allowed; flag_ALL is the product of the four. */
  method CorrectorCheckout(ws: Sheet, today: Date, canLogin: string -> bool) returns (r: Option<Checkout>)
    ensures r.None? <==>
              ToInt2(At(ws, 9, ColD)).Err? || ToInt2(At(ws, 9, ColC)).Err? || ToInt2(At(ws, 9, ColB)).Err?
              || !At(ws, 11, ColB).Text? || !At(ws, 11, ColC).Text?
              || AtLeastOne(At(ws, 12, ColE)).None?
    ensures r.Some? ==>
              var deadline := Date(ToInt2(At(ws, 9, ColD)).value, ToInt2(At(ws, 9, ColC)).value, ToInt2(At(ws, 9, ColB)).value);
              var c := r.value;
              && c.usn == DeleteChar(At(ws, 11, ColB).s + At(ws, 11, ColC).s, ' ')
              && (c.subject == 1 <==> !At(ws, 1, ColB).Empty?)
              && (c.deadline == 1 <==> !DateBefore(deadline, today))
              && (c.login == 1 <==> canLogin(c.usn))
              && (c.trials == 1 <==> AtLeastOne(At(ws, 12, ColE)) == Some(true))
              && (c.all == 1 <==> c.subject == 1 && c.deadline == 1 && c.login == 1 && c.trials == 1)
              && (c.all == 0 || c.all == 1)
  {
    var y := ToInt2(At(ws, 9, ColD));
    var m := ToInt2(At(ws, 9, ColC));
    var d := ToInt2(At(ws, 9, ColB));
    if y.Err? || m.Err? || d.Err? {
      return None;
    }
    var p1, p2 := At(ws, 11, ColB), At(ws, 11, ColC);
    if !p1.Text? || !p2.Text? {
      return None;
    }
    var usn := DeleteChar(p1.s + p2.s, ' ');
    var flag1, flag2, flag3, flag4 := 1, 0, 1, 0;
    if At(ws, 1, ColB).Empty? {
      flag1 := 0;
    }
    if today.year < y.value {
      flag2 := 1;
    } else if today.year == y.value {
      if today.month < m.value {
        flag2 := 1;
      } else if today.month == m.value {
        if today.day <= d.value {
          flag2 := 1;
        }
      }
    }
    flag3 := if canLogin(usn) then 1 else 0;
    var trials := AtLeastOne(At(ws, 12, ColE));
    if trials.None? {
      return None;
    }
    if trials.value {
      flag4 := 1;
    }
    r := Some(Checkout(flag1, flag2, flag3, flag4, flag1 * flag2 * flag3 * flag4, usn));
  }
}
