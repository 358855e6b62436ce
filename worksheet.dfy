/** set_exercise_rows of the current package and of the src package: a
    scan down column A that cuts the rows into exercises and, for a
    student file, collects the entered values of column C per exercise.
    The current package starts at row 13, stops at the first empty cell
    and validates every row; the src package starts at row 16, stops at
    the first cell that is not a float, truncates it and validates
    nothing, so its Python list indexing can also see negative indices. */
module Worksheet {
  import opened Wrappers
  import opened Text
  import opened Cells

  datatype Generation = Current | Src

  /** The row of the first exercise. */
  function FirstRow(g: Generation): (r: int)
    ensures r >= 1
  {
    if g == Current then 13 else 16
  }

  /** The column-A value that ends the scan. */
  predicate EndsScan(g: Generation, c: Cell)
  {
    if g == Current then c.Empty? else !c.Num?
  }

  /** The first row at or below `from` whose column-A value ends the scan;
      past the filled area every cell is empty, which ends both scans. */
  function StopRow(g: Generation, ws: Sheet, from: int): (r: int)
    requires from >= 1
    ensures r >= from
    ensures EndsScan(g, At(ws, r, ColA))
    ensures forall row :: from <= row < r ==> !EndsScan(g, At(ws, row, ColA))
    decreases |ws| + 1 - from
  {
    if EndsScan(g, At(ws, from, ColA)) then from else StopRow(g, ws, from + 1)
  }

  /** The exercise number of a scanned row: int() of the cell in the
      current package, int() of the float in the src package. */
  function Number(g: Generation, ws: Sheet, row: int): int
  {
    var c := At(ws, row, ColA);
    if g == Current then
      (match ToInt(c) case Ok(n) => n case Err(_) => 0)
    else
      (match c case Num(x, _) => Trunc(x) case _ => 0)
  }

  /** previous_exercise when the scan reaches `row`. */
  function PrevNumber(g: Generation, ws: Sheet, row: int): int
  {
    if row <= FirstRow(g) then 0 else Number(g, ws, row - 1)
  }

  /** A row where a new exercise begins: its number is larger than the
      previous one. */
  predicate IsStart(g: Generation, ws: Sheet, row: int)
  {
    Number(g, ws, row) > PrevNumber(g, ws, row)
  }

  /** len(self.solutions) when the scan reaches `row`: the largest number
      seen so far, and 0 before any positive one. */
  function MaxBefore(g: Generation, ws: Sheet, row: int): (r: nat)
    ensures forall x :: FirstRow(g) <= x < row ==> Number(g, ws, x) <= r
    decreases row - FirstRow(g)
  {
    if row <= FirstRow(g) then 0
    else
      var m := MaxBefore(g, ws, row - 1);
      var n := Number(g, ws, row - 1);
      if n > m then n else m
  }

  /** The column-C values of the rows above `row` numbered n, in row
      order: what solutions[n - 1] holds in a student file. */
  function Column(g: Generation, ws: Sheet, row: int, n: int): seq<Cell>
    decreases row - FirstRow(g)
  {
    if row <= FirstRow(g) then []
    else Column(g, ws, row - 1, n) + (if Number(g, ws, row - 1) == n then [At(ws, row - 1, ColC)] else [])
  }

  /** self.solutions[n - 1] after appending a list when len <= n - 1:
      Python raises IndexError when n - 1 is past the end or below -len. */
  predicate AppendFails(n: int, len: nat)
  {
    n - 1 > len || n - 1 < -(len as int)
  }

  /** Why a row stops the scan: the current package's ExcelFileException,
      or an exception it does not catch (TypeError of int() or float() on
      a date or other object, IndexError of a gap in the numbering). */
  datatype Fault = ExcelFileError | Raised

  /** int() of the column-A value in the current package. */
  function NumberFault(c: Cell): Option<Fault>
  {
    match ToInt(c)
    case Err(TypeError) => Some(Raised)
    case Err(ValueError) => Some(ExcelFileError)
    case Ok(n) => if n <= 0 then Some(ExcelFileError) else None
  }

  /** A tolerance cell of a corrector: checked with float() when truthy. */
  function ToleranceFault(c: Cell): Option<Fault>
  {
    if !Truthy(c) then None
    else match ToFloat(c)
      case Ok(_) => None
      case Err(ValueError) => Some(ExcelFileError)
      case Err(TypeError) => Some(Raised)
  }

  /** What goes wrong on a scanned row, in the order the source checks. */
  function RowFault(g: Generation, ws: Sheet, row: int, isStudent: bool): Option<Fault>
  {
    if g == Current && NumberFault(At(ws, row, ColA)).Some? then NumberFault(At(ws, row, ColA))
    else if isStudent then
      (if AppendFails(Number(g, ws, row), MaxBefore(g, ws, row)) then Some(Raised) else None)
    else if g == Current then
      (if ToleranceFault(At(ws, row, ColD)).Some? then ToleranceFault(At(ws, row, ColD))
       else ToleranceFault(At(ws, row, ColE)))
    else None
  }

  predicate RowsPass(g: Generation, ws: Sheet, isStudent: bool, from: int, to: int)
  {
    forall row :: from <= row < to ==> RowFault(g, ws, row, isStudent).None?
  }

  predicate AllPositive(g: Generation, ws: Sheet, from: int, to: int)
  {
    forall row :: from <= row < to ==> Number(g, ws, row) >= 1
  }

  /** An exercise: its first and last row. */
  datatype Range = Range(first: int, last: int)

  datatype Scan = Scan(ranges: seq<Range>, solutions: seq<seq<Cell>>)

  datatype ScanError = BadRow(row: int, fault: Fault) | UnmatchedRange

  /** The ranges follow each other without gap or overlap and cover
      exactly the rows lo .. hi - 1. */
  predicate Tiles(rs: seq<Range>, lo: int, hi: int)
  {
    && (|rs| == 0 <==> hi == lo)
    && (|rs| > 0 ==> rs[0].first == lo && rs[|rs| - 1].last == hi - 1)
    && (forall i :: 0 <= i < |rs| ==> rs[i].first <= rs[i].last)
    && (forall i :: 0 <= i < |rs| - 1 ==> rs[i].last + 1 == rs[i + 1].first)
  }

  /** Every range begins at a start row and holds no other start row. */
  predicate SplitAt(start: int -> bool, rs: seq<Range>)
  {
    && (forall i :: 0 <= i < |rs| ==> start(rs[i].first))
    && (forall i, row :: 0 <= i < |rs| && rs[i].first < row <= rs[i].last ==> !start(row))
  }

  /** The ranges split the rows where the exercise number increases. */
  predicate SplitAtStarts(g: Generation, ws: Sheet, rs: seq<Range>)
  {
    SplitAt(x => IsStart(g, ws, x), rs)
  }

  /** The begin and end lists when a scan from `first` reaches `row`, for
      start rows told by `start`: begins lists the start rows so far, ends
      the row before each start but the first. */
  ghost predicate Bounds(start: int -> bool, first: int, row: int, begins: seq<int>, ends: seq<int>)
  {
    && (row == first ==> begins == [] && ends == [])
    && (row > first ==> |begins| == |ends| + 1 && begins[0] == first && begins[|begins| - 1] < row)
    && |ends| < |begins| + (if row == first then 1 else 0)
    && (forall i :: 0 <= i < |ends| ==> begins[i] <= ends[i] && ends[i] + 1 == begins[i + 1])
    && (forall i :: 0 <= i < |begins| ==> start(begins[i]))
    && (forall i, x :: 0 <= i < |ends| && begins[i] < x <= ends[i] ==> !start(x))
    && (|begins| > 0 ==> forall x :: begins[|begins| - 1] < x < row ==> !start(x))
  }

  /** exercise_row_begin when the scan reaches `row`: the start rows
      above it. */
  function Starts(g: Generation, ws: Sheet, row: int): seq<int>
    decreases row - FirstRow(g)
  {
    if row <= FirstRow(g) then []
    else Starts(g, ws, row - 1) + (if IsStart(g, ws, row - 1) then [row - 1] else [])
  }

  /** exercise_row_end when the scan reaches `row`: the row before each
      start row above it that follows a positive number. */
  function Closes(g: Generation, ws: Sheet, row: int): seq<int>
    decreases row - FirstRow(g)
  {
    if row <= FirstRow(g) then []
    else Closes(g, ws, row - 1)
         + (if IsStart(g, ws, row - 1) && PrevNumber(g, ws, row - 1) > 0 then [row - 2] else [])
  }

  /** Bounds of the lists the scan has built when it reaches `row`. */
  ghost predicate ScanBounds(g: Generation, ws: Sheet, row: int)
  {
    Bounds(x => IsStart(g, ws, x), FirstRow(g), row, Starts(g, ws, row), Closes(g, ws, row))
  }

  /** While every number is positive, the begin and end lists pair up
      into consecutive ranges split at the start rows. */
  lemma {:induction false} StartsBound(g: Generation, ws: Sheet, row: int)
    requires row >= FirstRow(g) && AllPositive(g, ws, FirstRow(g), row)
    ensures ScanBounds(g, ws, row)
    decreases row - FirstRow(g)
  {
    if row == FirstRow(g) {
      assert Starts(g, ws, row) == [] && Closes(g, ws, row) == [];
    } else {
      StartsBound(g, ws, row - 1);
      assert Number(g, ws, row - 1) >= 1;
      if row - 1 > FirstRow(g) {
        assert Number(g, ws, row - 2) >= 1;
      }
      StartsStep(g, ws, row - 1);
    }
  }

  /** One row more: how the begin and end lists grow at `last`. */
  lemma StartsStep(g: Generation, ws: Sheet, last: int)
    requires last >= FirstRow(g)
    requires Number(g, ws, last) >= 1 && (last > FirstRow(g) ==> Number(g, ws, last - 1) >= 1)
    requires ScanBounds(g, ws, last)
    ensures ScanBounds(g, ws, last + 1)
  {
    var first := FirstRow(g);
    var start := x => IsStart(g, ws, x);
    var begins, ends := Starts(g, ws, last), Closes(g, ws, last);
    if last == first {
      assert IsStart(g, ws, last);
      assert Starts(g, ws, last + 1) == begins + [last] && Closes(g, ws, last + 1) == ends;
      FirstStart(start, first, last, begins, ends);
    } else if IsStart(g, ws, last) {
      assert PrevNumber(g, ws, last) == Number(g, ws, last - 1);
      assert Starts(g, ws, last + 1) == begins + [last] && Closes(g, ws, last + 1) == ends + [last - 1];
      NextStart(start, first, last, begins, ends);
    } else {
      assert Starts(g, ws, last + 1) == begins && Closes(g, ws, last + 1) == ends;
      NoStart(start, first, last, begins, ends);
    }
  }

  /** set_exercise_rows of the current package. A row that fails its
      checks ends the scan with that row's fault. Otherwise every number is
      positive, the ranges tile the scanned rows 13 .. stop - 1 and split
      them where the number increases, and a student file's solutions[k]
      holds the column-C values of the rows numbered k + 1; a corrector
      file collects no solutions. */
  method SetExerciseRows(ws: Sheet, isStudent: bool) returns (r: Result<Scan, ScanError>)
    ensures var first := FirstRow(Current);
            var stop := StopRow(Current, ws, first);
            && (r.Err? ==>
                  && r.error.BadRow?
                  && first <= r.error.row < stop
                  && RowFault(Current, ws, r.error.row, isStudent) == Some(r.error.fault)
                  && RowsPass(Current, ws, isStudent, first, r.error.row))
            && (r.Ok? ==>
                  && RowsPass(Current, ws, isStudent, first, stop)
                  && AllPositive(Current, ws, first, stop)
                  && Tiles(r.value.ranges, first, stop)
                  && SplitAtStarts(Current, ws, r.value.ranges))
            && (r.Ok? && !isStudent ==> r.value.solutions == [])
            && (r.Ok? && isStudent ==>
                  && |r.value.solutions| == MaxBefore(Current, ws, stop)
                  && forall k :: 0 <= k < |r.value.solutions| ==> r.value.solutions[k] == Column(Current, ws, stop, k + 1))
  {
    var g := Current;
    var first := FirstRow(g);
    ghost var stop := StopRow(g, ws, first);
    var index := first;
    var previous := 0;
    var begins: seq<int> := [];
    var ends: seq<int> := [];
    var solutions: seq<seq<Cell>> := [];
    while At(ws, index, ColA) != Empty
      invariant first <= index <= stop
      invariant RowsPass(Current, ws, isStudent, first, index)
      invariant AllPositive(Current, ws, first, index)
      invariant previous == PrevNumber(Current, ws, index)
      invariant begins == Starts(Current, ws, index) && ends == Closes(Current, ws, index)
      invariant !isStudent ==> solutions == []
      invariant isStudent ==> |solutions| == MaxBefore(Current, ws, index)
      invariant isStudent ==> forall k :: 0 <= k < |solutions| ==> solutions[k] == Column(Current, ws, index, k + 1)
      decreases stop - index
    {
      var number := ReadNumber(ws, index);
      if number.Err? {
        return Err(BadRow(index, number.error));
      }
      var current := number.value;
      begins, ends := AdvanceBounds(g, ws, index, previous, current, begins, ends);
      if isStudent {
        var collected := CollectRow(Current, ws, index, solutions);
        if collected.None? {
          return Err(BadRow(index, Raised));
        }
        solutions := collected.value;
      } else {
        var fault := CheckTolerances(ws, index);
        if fault.Some? {
          return Err(BadRow(index, fault.value));
        }
      }
      previous := current;
      index := index + 1;
    }
    var ranges := CloseRanges(Current, ws, index, begins, ends);
    r := Ok(Scan(ranges.value, solutions));
  }

  /** The lists the scan loop has built when it stops. */
  datatype Lists = Lists(stop: int, begins: seq<int>, ends: seq<int>, solutions: seq<seq<Cell>>)

  /** The loop of set_exercise_rows of the src package, from row 16 down
      to the first column-A value that is not a float. Only a student
      file's list indexing can fail on the way. */
  method SrcScanRows(ws: Sheet, isStudent: bool) returns (r: Result<Lists, ScanError>)
    ensures var g := Src;
            var first := FirstRow(g);
            var stop := StopRow(g, ws, first);
            && (r.Err? ==>
                  && r.error.BadRow?
                  && first <= r.error.row < stop
                  && RowFault(g, ws, r.error.row, isStudent) == Some(r.error.fault)
                  && RowsPass(g, ws, isStudent, first, r.error.row))
            && (r.Ok? ==>
                  && r.value.stop == stop
                  && RowsPass(g, ws, isStudent, first, stop)
                  && r.value.begins == Starts(g, ws, stop) && r.value.ends == Closes(g, ws, stop))
            && (r.Ok? && !isStudent ==> r.value.solutions == [])
            && (r.Ok? && isStudent ==> |r.value.solutions| == MaxBefore(g, ws, stop))
            && (r.Ok? && isStudent && AllPositive(g, ws, first, stop) ==>
                  forall k :: 0 <= k < |r.value.solutions| ==> r.value.solutions[k] == Column(g, ws, stop, k + 1))
  {
    var g := Src;
    var first := FirstRow(g);
    ghost var stop := StopRow(g, ws, first);
    var index := first;
    var previous := 0;
    var begins: seq<int> := [];
    var ends: seq<int> := [];
    var solutions: seq<seq<Cell>> := [];
    ghost var positive := true;
    while At(ws, index, ColA).Num?
      invariant first <= index <= stop
      invariant RowsPass(g, ws, isStudent, first, index)
      invariant previous == PrevNumber(g, ws, index)
      invariant begins == Starts(g, ws, index) && ends == Closes(g, ws, index)
      invariant !isStudent ==> solutions == []
      invariant isStudent ==> |solutions| == MaxBefore(g, ws, index)
      invariant positive == AllPositive(g, ws, first, index)
      invariant isStudent && positive ==>
                  forall k :: 0 <= k < |solutions| ==> solutions[k] == Column(g, ws, index, k + 1)
      decreases stop - index
    {
      var current := Trunc(At(ws, index, ColA).value);
      begins, ends := AdvanceBounds(g, ws, index, previous, current, begins, ends);
      if isStudent {
        var collected := CollectRow(g, ws, index, solutions);
        if collected.None? {
          return Err(BadRow(index, Raised));
        }
        solutions := collected.value;
      }
      positive := positive && current >= 1;
      previous := current;
      index := index + 1;
    }
    r := Ok(Lists(index, begins, ends, solutions));
  }

  /** set_exercise_rows of the src package. Nothing is validated: a gap in
      the numbering, or a number whose Python index falls before the
      start of the list, raises IndexError, and so does a begin without
      end, which happens only after a number that is not positive. With
      positive numbers the ranges and solutions are as in the current
      package, from row 16. */
  method SrcSetExerciseRows(ws: Sheet, isStudent: bool) returns (r: Result<Scan, ScanError>)
    ensures var first := FirstRow(Src);
            var stop := StopRow(Src, ws, first);
            && (r.Err? && r.error.BadRow? ==>
                  && first <= r.error.row < stop
                  && RowFault(Src, ws, r.error.row, isStudent) == Some(r.error.fault)
                  && RowsPass(Src, ws, isStudent, first, r.error.row))
            && (!(r.Err? && r.error.BadRow?) ==> RowsPass(Src, ws, isStudent, first, stop))
            && (r.Err? && r.error.UnmatchedRange? <==>
                  RowsPass(Src, ws, isStudent, first, stop) && |Closes(Src, ws, stop)| + 1 < |Starts(Src, ws, stop)|)
            && (r.Err? && r.error.UnmatchedRange? ==> !AllPositive(Src, ws, first, stop))
            && (r.Ok? && AllPositive(Src, ws, first, stop) ==>
                  Tiles(r.value.ranges, first, stop) && SplitAtStarts(Src, ws, r.value.ranges))
            && (r.Ok? && !isStudent ==> r.value.solutions == [])
            && (r.Ok? && isStudent ==> |r.value.solutions| == MaxBefore(Src, ws, stop))
            && (r.Ok? && isStudent && AllPositive(Src, ws, first, stop) ==>
                  forall k :: 0 <= k < |r.value.solutions| ==> r.value.solutions[k] == Column(Src, ws, stop, k + 1))
  {
    var scanned := SrcScanRows(ws, isStudent);
    if scanned.Err? {
      return Err(scanned.error);
    }
    var lists := scanned.value;
    var ranges := CloseRanges(Src, ws, lists.stop, lists.begins, lists.ends);
    if ranges.None? {
      return Err(UnmatchedRange);
    }
    r := Ok(Scan(ranges.value, lists.solutions));
  }

  /** One scanned row: a number above the previous one opens a range at
      `row` and, after a positive number, closes the open one above it. */
  method AdvanceBounds(g: Generation, ws: Sheet, row: int, previous: int, current: int,
                       begins: seq<int>, ends: seq<int>) returns (begins': seq<int>, ends': seq<int>)
    requires row >= FirstRow(g)
    requires previous == PrevNumber(g, ws, row) && current == Number(g, ws, row)
    requires begins == Starts(g, ws, row) && ends == Closes(g, ws, row)
    ensures begins' == Starts(g, ws, row + 1) && ends' == Closes(g, ws, row + 1)
  {
    begins', ends' := begins, ends;
    if current > previous {
      if previous > 0 {
        ends' := ends + [row - 1];
      }
      begins' := begins + [row];
    }
  }

  /** The end of the scan at the stop row: the last range is closed at
      the row above, and the begin and end lists are zipped into ranges.
      The zip fails only after a number that is not positive; otherwise
      the ranges tile the scanned rows and split them at the start rows. */
  method CloseRanges(g: Generation, ws: Sheet, stop: int, begins: seq<int>, ends: seq<int>) returns (r: Option<seq<Range>>)
    requires stop >= FirstRow(g)
    requires begins == Starts(g, ws, stop) && ends == Closes(g, ws, stop)
    ensures r.None? <==> |Closes(g, ws, stop)| + 1 < |Starts(g, ws, stop)|
    ensures r.None? ==> !AllPositive(g, ws, FirstRow(g), stop)
    ensures r.Some? && AllPositive(g, ws, FirstRow(g), stop) ==>
              Tiles(r.value, FirstRow(g), stop) && SplitAtStarts(g, ws, r.value)
  {
    var closed := ends + [stop - 1];
    if AllPositive(g, ws, FirstRow(g), stop) {
      StartsBound(g, ws, stop);
    }
    r := ZipRanges(begins, closed);
    if r.Some? && AllPositive(g, ws, FirstRow(g), stop) {
      BoundsGiveRanges(x => IsStart(g, ws, x), FirstRow(g), stop, begins, closed, r.value);
    }
  }

  /** `[[begins[i], ends[i]] for i in range(len(begins))]`, None when ends
      runs out first (IndexError). */
  method ZipRanges(begins: seq<int>, ends: seq<int>) returns (r: Option<seq<Range>>)
    ensures r.None? <==> |ends| < |begins|
    ensures r.Some? ==> |r.value| == |begins|
                        && forall i :: 0 <= i < |begins| ==> r.value[i] == Range(begins[i], ends[i])
  {
    if |ends| < |begins| {
      return None;
    }
    var ranges: seq<Range> := [];
    for i := 0 to |begins|
      invariant |ranges| == i
      invariant forall j :: 0 <= j < i ==> ranges[j] == Range(begins[j], ends[j])
    {
      ranges := ranges + [Range(begins[i], ends[i])];
    }
    r := Some(ranges);
  }

  /** A start row after the first closes the open range and opens one. */
  lemma NextStart(start: int -> bool, first: int, row: int, begins: seq<int>, ends: seq<int>)
    requires row > first && Bounds(start, first, row, begins, ends) && start(row)
    ensures Bounds(start, first, row + 1, begins + [row], ends + [row - 1])
  {
  }

  /** The first row opens the first range. */
  lemma FirstStart(start: int -> bool, first: int, row: int, begins: seq<int>, ends: seq<int>)
    requires row == first && Bounds(start, first, row, begins, ends) && start(row)
    ensures Bounds(start, first, row + 1, begins + [row], ends)
  {
  }

  /** Any other row extends the open range. */
  lemma NoStart(start: int -> bool, first: int, row: int, begins: seq<int>, ends: seq<int>)
    requires row > first && Bounds(start, first, row, begins, ends) && !start(row)
    ensures Bounds(start, first, row + 1, begins, ends)
  {
  }

  /** int() of a column-A value in the current package, which rejects
      what is not a positive integer. */
  method ReadNumber(ws: Sheet, row: int) returns (r: Result<int, Fault>)
    ensures r.Err? <==> NumberFault(At(ws, row, ColA)).Some?
    ensures r.Err? ==> NumberFault(At(ws, row, ColA)) == Some(r.error)
    ensures r.Ok? ==> r.value == Number(Current, ws, row) && r.value >= 1
  {
    match ToInt(At(ws, row, ColA)) {
      case Err(e) =>
        return Err(if e == TypeError then Raised else ExcelFileError);
      case Ok(n) =>
        if n <= 0 {
          return Err(ExcelFileError);
        }
        return Ok(n);
    }
  }

  /** A corrector row's tolerance cells, relative (D) before absolute (E). */
  method CheckTolerances(ws: Sheet, row: int) returns (fault: Option<Fault>)
    ensures fault == if ToleranceFault(At(ws, row, ColD)).Some? then ToleranceFault(At(ws, row, ColD))
                     else ToleranceFault(At(ws, row, ColE))
  {
    fault := ToleranceFault(At(ws, row, ColD));
    if fault.None? {
      fault := ToleranceFault(At(ws, row, ColE));
    }
  }

  /** `if len(solutions) <= n - 1: solutions.append([])` followed by
      `solutions[n - 1].append(c)` for the row's number n and column-C
      value c, with Python's list indexing: None when the index is out of
      range (IndexError). While every number is positive, solutions[k]
      stays the column-C values of the rows numbered k + 1. */
  method CollectRow(g: Generation, ws: Sheet, row: int, solutions: seq<seq<Cell>>) returns (r: Option<seq<seq<Cell>>>)
    requires row >= FirstRow(g) && |solutions| == MaxBefore(g, ws, row)
    requires AllPositive(g, ws, FirstRow(g), row) ==>
               forall k :: 0 <= k < |solutions| ==> solutions[k] == Column(g, ws, row, k + 1)
    ensures r.None? <==> AppendFails(Number(g, ws, row), MaxBefore(g, ws, row))
    ensures r.Some? ==> |r.value| == MaxBefore(g, ws, row + 1)
    ensures r.Some? && AllPositive(g, ws, FirstRow(g), row + 1) ==>
              forall k :: 0 <= k < |r.value| ==> r.value[k] == Column(g, ws, row + 1, k + 1)
  {
    var n := Number(g, ws, row);
    var lists := solutions;
    if |lists| <= n - 1 {
      lists := lists + [[]];
    }
    if n - 1 >= |lists| || n - 1 < -|lists| {
      return None;
    }
    var slot := if n - 1 >= 0 then n - 1 else |lists| + n - 1;
    r := Some(lists[slot := lists[slot] + [At(ws, row, ColC)]]);
    if AllPositive(g, ws, FirstRow(g), row + 1) {
      StepKeepsColumns(g, ws, row, n, solutions, r.value);
    }
  }

  /** One scanned row of a student file, numbered n >= 1, appends its
      column-C value to the list of n and leaves the others alone. */
  lemma StepKeepsColumns(g: Generation, ws: Sheet, row: int, n: int, before: seq<seq<Cell>>, after: seq<seq<Cell>>)
    requires row >= FirstRow(g) && n == Number(g, ws, row)
    requires |before| == MaxBefore(g, ws, row)
    requires forall k :: 0 <= k < |before| ==> before[k] == Column(g, ws, row, k + 1)
    requires 1 <= n <= |before| + 1
    requires |after| == (if n - 1 >= |before| then |before| + 1 else |before|)
    requires after[n - 1] == (if n - 1 < |before| then before[n - 1] else []) + [At(ws, row, ColC)]
    requires forall k :: 0 <= k < |before| && k != n - 1 ==> after[k] == before[k]
    ensures forall k :: 0 <= k < |after| ==> after[k] == Column(g, ws, row + 1, k + 1)
  {
    if n - 1 == |before| {
      ColumnBeyondMax(g, ws, row, n);
    }
    forall k | 0 <= k < |after|
      ensures after[k] == Column(g, ws, row + 1, k + 1)
    {
      ColumnStep(g, ws, row, n, k + 1);
    }
  }

  /** One more row, numbered n, adds its column-C value to the list of n. */
  lemma ColumnStep(g: Generation, ws: Sheet, row: int, n: int, m: int)
    requires row >= FirstRow(g) && n == Number(g, ws, row)
    ensures Column(g, ws, row + 1, m) == Column(g, ws, row, m) + (if n == m then [At(ws, row, ColC)] else [])
  {
  }

  /** At the stop row the begin and end lists zip into ranges that tile
      the scanned rows and split them at the start rows. */
  lemma BoundsGiveRanges(start: int -> bool, first: int, stop: int, begins: seq<int>, ends: seq<int>, ranges: seq<Range>)
    requires stop >= first
    requires |ends| > 0 && Bounds(start, first, stop, begins, ends[..|ends| - 1]) && ends[|ends| - 1] == stop - 1
    requires |ends| >= |begins| && |ranges| == |begins|
    requires forall i :: 0 <= i < |begins| ==> ranges[i] == Range(begins[i], ends[i])
    ensures Tiles(ranges, first, stop) && SplitAt(start, ranges)
  {
  }

  /** A number above every number seen so far has collected nothing yet. */
  lemma {:induction false} ColumnBeyondMax(g: Generation, ws: Sheet, row: int, n: int)
    requires n > MaxBefore(g, ws, row)
    ensures Column(g, ws, row, n) == []
    decreases row - FirstRow(g)
  {
    if row > FirstRow(g) {
      ColumnBeyondMax(g, ws, row - 1, n);
    }
  }

  /** Ranges that tile lo .. hi - 1 put every row in exactly one range. */
  lemma {:induction false} TilesCover(rs: seq<Range>, lo: int, hi: int, row: int)
    requires Tiles(rs, lo, hi) && lo <= row < hi
    ensures exists i :: 0 <= i < |rs| && rs[i].first <= row <= rs[i].last
    ensures forall i, j ::
              (0 <= i < |rs| && 0 <= j < |rs| && rs[i].first <= row <= rs[i].last && rs[j].first <= row <= rs[j].last)
              ==> i == j
    decreases |rs|
  {
    if row > rs[0].last {
      TilesCover(rs[1..], rs[0].last + 1, hi, row);
      var i :| 0 <= i < |rs| - 1 && rs[1..][i].first <= row <= rs[1..][i].last;
      assert rs[i + 1].first <= row <= rs[i + 1].last;
    }
    forall i, j | 0 <= i < |rs| && 0 <= j < |rs| && rs[i].first <= row <= rs[i].last
                  && rs[j].first <= row <= rs[j].last
      ensures i == j
    {
      if i < j {
        RangesAscend(rs, lo, hi, i, j);
      } else if j < i {
        RangesAscend(rs, lo, hi, j, i);
      }
    }
  }

  /** A later range lies wholly below an earlier one. */
  lemma {:induction false} RangesAscend(rs: seq<Range>, lo: int, hi: int, i: int, j: int)
    requires Tiles(rs, lo, hi) && 0 <= i < j < |rs|
    ensures rs[i].last < rs[j].first
    decreases j - i
  {
    if j > i + 1 {
      RangesAscend(rs, lo, hi, i, j - 1);
    }
  }

  /** In the scan's ranges a row opens a range exactly when its exercise
      number increases. */
  lemma StartsAreRangeFirsts(g: Generation, ws: Sheet, rs: seq<Range>, lo: int, hi: int, row: int)
    requires Tiles(rs, lo, hi) && SplitAtStarts(g, ws, rs) && lo <= row < hi
    ensures IsStart(g, ws, row) <==> exists i :: 0 <= i < |rs| && rs[i].first == row
  {
    TilesCover(rs, lo, hi, row);
    var i :| 0 <= i < |rs| && rs[i].first <= row <= rs[i].last;
    var start := x => IsStart(g, ws, x);
    assert SplitAt(start, rs);
    if row == rs[i].first {
      assert start(rs[i].first);
    } else {
      assert !start(row);
      forall j | 0 <= j < |rs|
        ensures rs[j].first != row
      {
        if j < i {
          RangesAscend(rs, lo, hi, j, i);
        } else if j > i {
          RangesAscend(rs, lo, hi, i, j);
        }
      }
    }
  }

  /** Every number up to the largest one has a row in a student file that
      passed the scan: a gap in the numbering stops it with IndexError. */
  lemma {:induction false} NumberingHasNoGaps(g: Generation, ws: Sheet, row: int, n: int)
    requires row >= FirstRow(g)
    requires RowsPass(g, ws, true, FirstRow(g), row) && AllPositive(g, ws, FirstRow(g), row)
    requires 1 <= n <= MaxBefore(g, ws, row)
    ensures |Column(g, ws, row, n)| > 0
    decreases row - FirstRow(g)
  {
    var last := row - 1;
    assert RowFault(g, ws, last, true).None?;
    if n <= MaxBefore(g, ws, last) {
      NumberingHasNoGaps(g, ws, last, n);
    } else {
      assert Number(g, ws, last) == n;
    }
  }
}
