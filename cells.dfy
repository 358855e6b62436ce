/** Spreadsheet cell values as the spreadsheet library hands them to the
    corrector, and the Python conversions PyCor applies to them:
    truthiness, str(), int() and float(). A worksheet is a grid of cells,
    addressed from row 1 and column 1 as in a spreadsheet. */
module Cells {
  import opened Wrappers
  import opened Text

  datatype Date = Date(year: int, month: int, day: int)

  /** Calendar order: (year, month, day) compared lexicographically. */
  predicate DateBefore(a: Date, b: Date)
  {
    a.year < b.year
    || (a.year == b.year && a.month < b.month)
    || (a.year == b.year && a.month == b.month && a.day < b.day)
  }

  /** A cell value: None, an int, a float (with the text str() gives for
      it), a text, a date (with its str() text), or any other object. */
  datatype Cell =
    | Empty
    | Int(i: int)
    | Num(value: real, shown: string)
    | Text(s: string)
    | When(date: Date, shown: string)
    | Other(shown: string)

  /** The Python exceptions a conversion can raise. */
  datatype PyError = ValueError | TypeError

  /** bool(x) in Python. */
  predicate Truthy(c: Cell)
  {
    match c
    case Empty => false
    case Int(i) => i != 0
    case Num(x, _) => x != 0.0
    case Text(s) => s != ""
    case When(_, _) => true
    case Other(_) => true
  }

  /** str(x) in Python. */
  function Str(c: Cell): string
  {
    match c
    case Empty => "None"
    case Int(i) => IntToString(i)
    case Num(_, shown) => shown
    case Text(s) => s
    case When(_, shown) => shown
    case Other(shown) => shown
  }

  /** A number the comparison operators accept (int or float). */
  function NumOf(c: Cell): (r: Option<real>)
    ensures r.Some? <==> c.Int? || c.Num?
  {
    match c
    case Int(i) => Some(i as real)
    case Num(x, _) => Some(x)
    case _ => None
  }

  /** int(x): truncation toward zero for a float. */
  function Trunc(x: real): (r: int)
    ensures x >= 0.0 ==> r as real <= x < r as real + 1.0
    ensures x < 0.0 ==> r as real - 1.0 < x <= r as real
  {
    if x >= 0.0 then x.Floor else -((-x).Floor)
  }

  /** int(x) in Python 3. */
  function ToInt(c: Cell): Result<int, PyError>
  {
    match c
    case Int(i) => Ok(i)
    case Num(x, _) => Ok(Trunc(x))
    case Text(s) =>
      (match ParseInt(s)
       case Some(i) => Ok(i)
       case None => Err(ValueError))
    case _ => Err(TypeError)
  }

  /** int(x) in Python 2, which reads no underscores in a text. */
  function ToInt2(c: Cell): (r: Result<int, PyError>)
    ensures r.Ok? ==> ToInt(c) == r
  {
    match c
    case Int(i) => Ok(i)
    case Num(x, _) => Ok(Trunc(x))
    case Text(s) =>
      ParseIntExtends(s);
      (match ParseInt2(s)
       case Some(i) => Ok(i)
       case None => Err(ValueError))
    case _ => Err(TypeError)
  }

  /** float(x) in Python. */
  function ToFloat(c: Cell): Result<real, PyError>
  {
    match c
    case Int(i) => Ok(i as real)
    case Num(x, _) => Ok(x)
    case Text(s) =>
      (match ParseFloat(s)
       case Some(x) => Ok(x)
       case None => Err(ValueError))
    case _ => Err(TypeError)
  }

  // ------------------------------------------- Python 2 mixed-type order

  /** The sign of x - y. */
  function Sign(x: real, y: real): int
  {
    if x < y then -1 else if x > y then 1 else 0
  }

  /** Texts in code-point order, as Python 2 orders unicode strings:
      -1, 0 or 1. */
  function TextCmp(a: string, b: string): (r: int)
    ensures -1 <= r <= 1
  {
    if a == [] && b == [] then 0
    else if a == [] then -1
    else if b == [] then 1
    else if a[0] < b[0] then -1
    else if a[0] > b[0] then 1
    else TextCmp(a[1..], b[1..])
  }

  /** The place of a cell's type in Python 2's mixed-type order: None
      first, numbers next, texts above every number. */
  function Py2Rank(c: Cell): int
  {
    match c
    case Empty => 0
    case Int(_) => 1
    case Num(_, _) => 1
    case _ => 2
  }

  /** cmp(a, b) in Python 2: -1, 0 or 1; None where the comparison
      operators raise TypeError, which they do for a date against anything
      but a date. Objects of any other type are not ordered here (None). */
  function Py2Order(a: Cell, b: Cell): (r: Option<int>)
    ensures r.Some? ==> -1 <= r.value <= 1
  {
    if a.When? && b.When? then
      Some(if DateBefore(a.date, b.date) then -1 else if DateBefore(b.date, a.date) then 1 else 0)
    else if a.When? || b.When? || a.Other? || b.Other? then None
    else if Py2Rank(a) != Py2Rank(b) then Some(if Py2Rank(a) < Py2Rank(b) then -1 else 1)
    else if a.Text? then Some(TextCmp(a.s, b.s))
    else if a.Empty? then Some(0)
    else Some(Sign(NumOf(a).value, NumOf(b).value))
  }

  /** Code-point order is antisymmetric, and two texts tie only when they
      are equal. */
  lemma {:induction false} TextCmpAntisymmetric(a: string, b: string)
    ensures TextCmp(b, a) == -TextCmp(a, b)
    ensures TextCmp(a, b) == 0 <==> a == b
  {
    if a != [] && b != [] && a[0] == b[0] {
      TextCmpAntisymmetric(a[1..], b[1..]);
      assert a == [a[0]] + a[1..] && b == [b[0]] + b[1..];
    }
  }

  /** Python 2 order is antisymmetric; it ties exactly the values == calls
      equal (numbers by value); numbers compare by value, None lies below
      and a text above every number. */
  lemma Py2OrderFacts(a: Cell, b: Cell)
    ensures Py2Order(a, b).Some? ==> Py2Order(b, a) == Some(-Py2Order(a, b).value)
    ensures a.Text? && b.Text? ==> (Py2Order(a, b) == Some(0) <==> a == b)
    ensures NumOf(a).Some? && NumOf(b).Some? ==>
              Py2Order(a, b) == Some(Sign(NumOf(a).value, NumOf(b).value))
    ensures a.Text? && NumOf(b).Some? ==> Py2Order(a, b) == Some(1)
    ensures a.Empty? && (NumOf(b).Some? || b.Text?) ==> Py2Order(a, b) == Some(-1)
  {
    if a.Text? && b.Text? {
      TextCmpAntisymmetric(a.s, b.s);
    }
  }

  /** A worksheet as rows of cells. */
  type Sheet = seq<seq<Cell>>

  /** The cell at (row, col), counted from 1; outside the filled area a
      cell is empty. */
  function At(ws: Sheet, row: int, col: int): (c: Cell)
    ensures row > |ws| ==> c == Empty
  {
    if 1 <= row <= |ws| && 1 <= col <= |ws[row - 1]| then ws[row - 1][col - 1] else Empty
  }

  const ColA := 1
  const ColB := 2
  const ColC := 3
  const ColD := 4
  const ColE := 5
}
