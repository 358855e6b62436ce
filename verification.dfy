/** The Python 2 grading kernel: correct_Teil, the attempt records
    (search_zero, is_blocked, is_passed, update_stats), the completion
    check (check_final) and the matriculation-number checks. Records
    hold floats; a graded attempt with no match is stored as 0.01 so that
    0 keeps meaning "unused", and an exercise number without any key row
    yields NaN, which the store keeps like any other value. np.loadtxt
    reads a file of one line as a 0-d array, which has neither len() nor
    [-1]: where the source uses either, a one-entry record is as good as
    an unreadable one. */
module Verification {
  import opened Wrappers
  import opened Cells
  import opened Comparator

  /** A stored score: a percentage or NaN. */
  datatype Score = Pct(value: real) | NaN

  const Unused := Pct(0.0)
  const Full := Pct(100.0)

  type LRecord = seq<Score>

  /** The record of one student for one exercise number (1-based). */
  datatype TeilKey = TeilKey(student: string, j: int)

  function LZeros(n: nat): (r: LRecord)
    ensures |r| == n && forall i :: 0 <= i < n ==> r[i] == Unused
  {
    seq(n, _ => Unused)
  }

  /** The record padded with unused slots or cut to n slots. */
  function LResize(s: LRecord, n: nat): (r: LRecord)
    ensures |r| == n
    ensures forall i :: 0 <= i < n && i < |s| ==> r[i] == s[i]
    ensures forall i :: |s| <= i < n ==> r[i] == Unused
  {
    if |s| < n then s + LZeros(n - |s|) else s[..n]
  }

  /** search_zero: the position of the first unused slot. */
  function SearchZero(s: LRecord): (r: Option<nat>)
    ensures r.Some? ==> r.value < |s| && s[r.value] == Unused
    ensures r.Some? ==> forall i :: 0 <= i < r.value ==> s[i] != Unused
    ensures r.None? ==> forall i :: 0 <= i < |s| ==> s[i] != Unused
  {
    if s == [] then None
    else if s[0] == Unused then Some(0)
    else match SearchZero(s[1..])
      case None => None
      case Some(k) => Some(k + 1)
  }

  /** is_blocked: the last slot is used (a 100 there counts as well). */
  predicate LastUsed(s: LRecord)
  {
    |s| > 0 && s[|s| - 1] != Unused
  }

  /** A record np.loadtxt reads back as a 0-d array. */
  predicate OneLine<T>(s: seq<T>)
  {
    |s| == 1
  }

  /** update_stats on the block record: the new record and the blocked
      flag. A missing, unreadable, empty or one-line record (whose [-1]
      raises) becomes n unused slots with the score in the first, never
      blocked; a record whose last slot is
      used is kept and reported blocked; otherwise the score goes into
      the first unused slot and the record is blocked when its last slot
      now holds neither 0 nor 100. */
  function LegacyWrite(s: Option<LRecord>, r: Score, n: nat): (LRecord, bool)
    requires n >= 1
  {
    if s.None? || |s.value| <= 1 then (LZeros(n)[0 := r], false)
    else
      var rec := s.value;
      if rec[|rec| - 1] != Unused then (rec, true)
      else
        var w := rec[SearchZero(rec).value := r];
        (w, w[|w| - 1] != Unused && w[|w| - 1] != Full)
  }

  /** np.max(history) == 100: a non-empty history without NaN whose
      largest value is 100. */
  predicate MaxIs100(h: seq<Score>)
  {
    |h| > 0
    && (forall i :: 0 <= i < |h| ==> h[i].Pct? && h[i].value <= 100.0)
    && Full in h
  }

  /** The attempt files of the students' folders: the block records
      Exercise<j>_block.txt, the histories data/Exercise<j>_all.txt and
      data/MatNum.txt. */
  class LegacyStore {
    var blocks: map<TeilKey, LRecord>
    var history: map<TeilKey, seq<Score>>
    var matNums: map<string, seq<int>>

    constructor ()
      ensures blocks == map[] && history == map[] && matNums == map[]
    {
      blocks := map[];
      history := map[];
      matNums := map[];
    }

    /** is_blocked: a stored record is padded or cut to trialsMax slots and
        kept; the flag is 1 exactly when its last slot is used. A missing
        record gives 0 and is not created; a one-line record gives 0 and
        is left as it is, because len() raises first; a record cut to no
        slots at all gives 0, because its last-slot lookup raises. */
    method IsBlocked(key: TeilKey, trialsMax: nat) returns (flag: int)
      modifies this
      ensures history == old(history) && matNums == old(matNums)
      ensures key !in old(blocks) || OneLine(old(blocks)[key]) ==> blocks == old(blocks) && flag == 0
      ensures key in old(blocks) && !OneLine(old(blocks)[key]) ==>
                var s := LResize(old(blocks)[key], trialsMax);
                blocks == old(blocks)[key := s] && (flag == 1 <==> LastUsed(s)) && (flag == 0 || flag == 1)
    {
      if key !in blocks || |blocks[key]| == 1 {
        return 0;
      }
      var rec := blocks[key];
      if |rec| < trialsMax {
        rec := rec + LZeros(trialsMax - |rec|);
        blocks := blocks[key := rec];
      } else if |rec| > trialsMax {
        rec := rec[..trialsMax];
        blocks := blocks[key := rec];
      }
      assert rec == LResize(old(blocks)[key], trialsMax);
      flag := 0;
      if |rec| > 0 && rec[|rec| - 1] != Unused {
        flag := 1;
      }
    }

    /** is_passed: 1 exactly when the exercise history holds a 100 and is
        not a one-line file, whose len() raises and gives 0. */
    method IsPassed(key: TeilKey) returns (flag: int)
      ensures flag == 0 || flag == 1
      ensures flag == 1 <==> key in history && !OneLine(history[key]) && Full in history[key]
    {
      flag := 0;
      if key in history && |history[key]| != 1 {
        var h := history[key];
        var k := 0;
        while k < |h|
          invariant 0 <= k <= |h|
          invariant flag == 1 <==> Full in h[..k]
          invariant flag == 0 || flag == 1
        {
          if h[k] == Full {
            flag := 1;
          }
          k := k + 1;
        }
        assert h[..k] == h;
      }
    }

    /** update_stats: the block record changes as LegacyWrite says and is
        saved in every case; the score is appended to the exercise history
        and the matriculation number to the student's log; passed is 1
        exactly when the score is 100. */
    method UpdateStats(key: TeilKey, r: Score, trialsMax: nat, matNum: int) returns (blocked: int, passed: int)
      requires trialsMax >= 1
      modifies this
      ensures var (s, b) := LegacyWrite(if key in old(blocks) then Some(old(blocks)[key]) else None, r, trialsMax);
              blocks == old(blocks)[key := s] && (blocked == 1 <==> b) && (blocked == 0 || blocked == 1)
      ensures history == old(history)[key := (if key in old(history) then old(history)[key] else []) + [r]]
      ensures matNums == old(matNums)[key.student := (if key.student in old(matNums) then old(matNums)[key.student] else []) + [matNum]]
      ensures passed == (if r == Full then 1 else 0)
    {
      blocked := WriteBlock(key, r, trialsMax);
      passed := if r == Full then 1 else 0;
      var h := if key in history then history[key] else [];
      history := history[key := h + [r]];
      var m := if key.student in matNums then matNums[key.student] else [];
      matNums := matNums[key.student := m + [matNum]];
    }

    /** The block-record part of update_stats: the record is loaded into a
        fresh array and the score written in place. */
    method WriteBlock(key: TeilKey, r: Score, trialsMax: nat) returns (blocked: int)
      requires trialsMax >= 1
      modifies this
      ensures var (s, b) := LegacyWrite(if key in old(blocks) then Some(old(blocks)[key]) else None, r, trialsMax);
              blocks == old(blocks)[key := s] && (blocked == 1 <==> b) && (blocked == 0 || blocked == 1)
      ensures history == old(history) && matNums == old(matNums)
    {
      blocked := 0;
      if key in blocks && |blocks[key]| > 1 {
        var s := blocks[key];
        var rec := new Score[|s|](i requires 0 <= i < |s| => s[i]);
        assert rec[..] == s;
        if rec[rec.Length - 1] != Unused {
          blocked := 1;
        } else {
          var k := 0;
          while rec[k] != Unused
            invariant 0 <= k < rec.Length
            invariant forall i :: 0 <= i < k ==> rec[i] != Unused
            decreases rec.Length - k
          {
            k := k + 1;
          }
          SearchZeroIsFirst(s, k);
          rec[k] := r;
          assert rec[..] == s[k := r];
          if rec[rec.Length - 1] != Unused && rec[rec.Length - 1] != Full {
            blocked := 1;
          }
        }
        blocks := blocks[key := rec[..]];
      } else {
        var rec := new Score[trialsMax](_ => Unused);
        rec[0] := r;
        assert rec[..] == LZeros(trialsMax)[0 := r];
        blocks := blocks[key := rec[..]];
      }
    }

    /** check_final: 1 exactly when every exercise 1..total has a history
        whose maximum is 100. */
    method CheckFinal(student: string, total: nat) returns (flag: int)
      ensures flag == 0 || flag == 1
      ensures flag == 1 <==> forall j :: 1 <= j <= total ==> TeilKey(student, j) in history && MaxIs100(history[TeilKey(student, j)])
    {
      var passedCount := 0;
      var j := 0;
      while j < total
        invariant 0 <= j <= total
        invariant 0 <= passedCount <= j
        invariant passedCount == j <==> forall i :: 1 <= i <= j ==> TeilKey(student, i) in history && MaxIs100(history[TeilKey(student, i)])
      {
        var key := TeilKey(student, j + 1);
        if key in history && HistoryMax(history[key]) == Some(100.0) {
          passedCount := passedCount + 1;
        }
        j := j + 1;
      }
      flag := if passedCount == total then 1 else 0;
    }
  }

  // ------------------------------------------------------- correct_Teil

  /** `Teil[k] == j` in Python 2: the key row's exercise number is j. */
  predicate InTeil(c: Cell, j: int)
  {
    NumOf(c) == Some(j as real)
  }

  /** The key rows among the first n that belong to exercise j, in order. */
  function ActiveRows(teil: seq<Cell>, j: int, n: nat): seq<nat>
    requires n <= |teil|
  {
    if n == 0 then [] else ActiveRows(teil, j, n - 1) + (if InTeil(teil[n - 1], j) then [n - 1] else [])
  }

  /** The active rows are exactly the rows below n of exercise j, ascending. */
  lemma {:induction false} ActiveRowsExact(teil: seq<Cell>, j: int, n: nat)
    requires n <= |teil|
    ensures forall i :: 0 <= i < |ActiveRows(teil, j, n)| ==> ActiveRows(teil, j, n)[i] < n && InTeil(teil[ActiveRows(teil, j, n)[i]], j)
    ensures forall i, i' :: 0 <= i < i' < |ActiveRows(teil, j, n)| ==> ActiveRows(teil, j, n)[i] < ActiveRows(teil, j, n)[i']
    ensures forall k :: 0 <= k < n && InTeil(teil[k], j) ==> k in ActiveRows(teil, j, n)
  {
    if n > 0 {
      ActiveRowsExact(teil, j, n - 1);
    }
  }

  function Sum(xs: seq<int>): int
  {
    if xs == [] then 0 else Sum(xs[..|xs| - 1]) + xs[|xs| - 1]
  }

  /** 100 * matches / active, with 0 stored as 0.01; NaN (0/0) when no
      key row belongs to the exercise. */
  function TeilScore(resol: seq<int>): Score
  {
    if |resol| == 0 then NaN
    else
      var p := 100.0 * (Sum(resol) as real) / (|resol| as real);
      if p == 0.0 then Pct(0.01) else Pct(p)
  }

  /** What correct_Teil returns: the score, the names of the compared
      variables and their 0/1 verdicts, parallel and in row order. */
  datatype TeilResult = TeilResult(score: Score, names: seq<string>, resol: seq<int>)

  /** The verdicts for the given key rows, in order. */
  function Verdicts(exerSol: seq<Cell>, solutions: seq<Cell>, cerror: seq<Cell>, rows: seq<nat>): (v: seq<int>)
    requires forall i :: 0 <= i < |rows| ==> rows[i] < |exerSol| && rows[i] < |solutions| && rows[i] < |cerror|
    ensures |v| == |rows|
  {
    if rows == [] then []
    else Verdicts(exerSol, solutions, cerror, rows[..|rows| - 1])
         + [CompareLegacy(exerSol[rows[|rows| - 1]], solutions[rows[|rows| - 1]], cerror[rows[|rows| - 1]])]
  }

  /** The i-th verdict compares the values of the i-th row. */
  lemma {:induction false} VerdictsAt(exerSol: seq<Cell>, solutions: seq<Cell>, cerror: seq<Cell>, rows: seq<nat>)
    requires forall i :: 0 <= i < |rows| ==> rows[i] < |exerSol| && rows[i] < |solutions| && rows[i] < |cerror|
    ensures forall i :: 0 <= i < |rows| ==>
              Verdicts(exerSol, solutions, cerror, rows)[i] == CompareLegacy(exerSol[rows[i]], solutions[rows[i]], cerror[rows[i]])
  {
    if rows != [] {
      VerdictsAt(exerSol, solutions, cerror, rows[..|rows| - 1]);
    }
  }

  /** The variable names of the given key rows, in order. */
  function RowNames(varNames: seq<string>, rows: seq<nat>): (ns: seq<string>)
    requires forall i :: 0 <= i < |rows| ==> rows[i] < |varNames|
    ensures |ns| == |rows|
    ensures forall i :: 0 <= i < |rows| ==> ns[i] == varNames[rows[i]]
  {
    if rows == [] then [] else RowNames(varNames, rows[..|rows| - 1]) + [varNames[rows[|rows| - 1]]]
  }

  /** One key row of the exercise: its verdict and its name are appended. */
  method GradeRow(exerSol: seq<Cell>, solutions: seq<Cell>, cerror: seq<Cell>, varNames: seq<string>,
                  ghost rows: seq<nat>, k: nat, resol: seq<int>, names: seq<string>)
    returns (resol': seq<int>, names': seq<string>)
    requires k < |exerSol| && k < |solutions| && k < |cerror| && k < |varNames|
    requires forall i :: 0 <= i < |rows| ==> rows[i] < k
    requires resol == Verdicts(exerSol, solutions, cerror, rows) && names == RowNames(varNames, rows)
    ensures resol' == Verdicts(exerSol, solutions, cerror, rows + [k])
    ensures names' == RowNames(varNames, rows + [k])
  {
    assert (rows + [k])[..|rows|] == rows;
    resol' := resol + [CompareLegacy(exerSol[k], solutions[k], cerror[k])];
    names' := names + [varNames[k]];
  }

  /** The loop of correct_Teil: the names and verdicts of the key rows of
      exercise j, in row order; None (IndexError) when one of them lies
      past the end of the student's values. */
  method GradeRows(teil: seq<Cell>, solutions: seq<Cell>, cerror: seq<Cell>, exerSol: seq<Cell>,
                   j: int, varNames: seq<string>) returns (r: Option<(seq<string>, seq<int>)>)
    requires |solutions| == |teil| && |cerror| == |teil| && |varNames| == |teil|
    ensures r.None? <==> exists k :: 0 <= k < |teil| && InTeil(teil[k], j) && k >= |exerSol|
    ensures r.Some? ==>
              var rows := ActiveRows(teil, j, |teil|);
              && (forall i :: 0 <= i < |rows| ==> rows[i] < |teil| && rows[i] < |exerSol|)
              && r.value.0 == RowNames(varNames, rows)
              && r.value.1 == Verdicts(exerSol, solutions, cerror, rows)
  {
    var resol: seq<int> := [];
    var names: seq<string> := [];
    ghost var rows: seq<nat> := [];
    var k: nat := 0;
    while k < |teil|
      invariant 0 <= k <= |teil|
      invariant rows == ActiveRows(teil, j, k)
      invariant forall k' :: 0 <= k' < k && InTeil(teil[k'], j) ==> k' < |exerSol|
      invariant forall i :: 0 <= i < |rows| ==> rows[i] < k && rows[i] < |exerSol|
      invariant names == RowNames(varNames, rows)
      invariant resol == Verdicts(exerSol, solutions, cerror, rows)
    {
      if InTeil(teil[k], j) {
        if k >= |exerSol| {
          return None;
        }
        resol, names := GradeRow(exerSol, solutions, cerror, varNames, rows, k, resol, names);
        rows := rows + [k];
      }
      k := k + 1;
    }
    r := Some((names, resol));
  }

  /** correct_Teil: compares the student's value with the key's value,
      under the key's tolerance, for every key row of exercise j, and
      scores the exercise. A key row past the end of the student's values
      raises IndexError (None). */
  method CorrectTeil(teil: seq<Cell>, solutions: seq<Cell>, cerror: seq<Cell>, exerSol: seq<Cell>,
                     j: int, varNames: seq<string>) returns (r: Option<TeilResult>)
    requires |solutions| == |teil| && |cerror| == |teil| && |varNames| == |teil|
    ensures r.None? <==> exists k :: 0 <= k < |teil| && InTeil(teil[k], j) && k >= |exerSol|
    ensures r.Some? ==>
              var rows := ActiveRows(teil, j, |teil|);
              && (forall i :: 0 <= i < |rows| ==> rows[i] < |teil| && rows[i] < |exerSol|)
              && r.value.names == RowNames(varNames, rows)
              && r.value.resol == Verdicts(exerSol, solutions, cerror, rows)
              && r.value.score == TeilScore(r.value.resol)
  {
    var graded := GradeRows(teil, solutions, cerror, exerSol, j, varNames);
    if graded.None? {
      return None;
    }
    var (names, resol) := graded.value;
    r := Some(TeilResult(TeilScore(resol), names, resol));
  }

  /** A graded exercise never scores 0: no match at all is stored as
      0.01, so every grading uses up a slot. With at least one key row the
      score lies in (0, 100] and is 100 exactly when every value matched. */
  lemma TeilScoreRange(resol: seq<int>)
    requires |resol| > 0
    requires forall i :: 0 <= i < |resol| ==> resol[i] == 0 || resol[i] == 1
    ensures TeilScore(resol).Pct? && 0.0 < TeilScore(resol).value <= 100.0
    ensures TeilScore(resol) == Full <==> forall i :: 0 <= i < |resol| ==> resol[i] == 1
  {
    SumBounds(resol);
    Percentage(Sum(resol) as real, |resol| as real);
  }

  /** 100 * m / n for 0 <= m <= n lies in [0, 100], below 100 exactly
      when m < n. */
  lemma Percentage(m: real, n: real)
    requires 0.0 <= m <= n && n > 0.0
    ensures 0.0 <= 100.0 * m / n <= 100.0
    ensures 100.0 * m / n == 100.0 <==> m == n
  {
    var q := 100.0 * m / n;
    assert q * n == 100.0 * m;
    assert (q - 100.0) * n == 100.0 * (m - n);
  }

  /** The sum of 0/1 verdicts is at most their number, and equal to it
      exactly when all are 1. */
  lemma {:induction false} SumBounds(xs: seq<int>)
    requires forall i :: 0 <= i < |xs| ==> xs[i] == 0 || xs[i] == 1
    ensures 0 <= Sum(xs) <= |xs|
    ensures Sum(xs) == |xs| <==> forall i :: 0 <= i < |xs| ==> xs[i] == 1
  {
    if xs != [] {
      var init := xs[..|xs| - 1];
      SumBounds(init);
      assert forall i :: 0 <= i < |init| ==> init[i] == xs[i];
    }
  }

  // ---------------------------------------------- store-level properties

  /** The number of used slots. */
  function LUsed(s: LRecord): (n: nat)
    ensures n <= |s|
  {
    if s == [] then 0 else (if s[0] != Unused then 1 else 0) + LUsed(s[1..])
  }

  lemma {:induction false} WriteAtFirstZeroUsesOneSlot(s: LRecord, r: Score)
    requires SearchZero(s).Some? && r != Unused
    ensures LUsed(s[SearchZero(s).value := r]) == LUsed(s) + 1
  {
    var k := SearchZero(s).value;
    if k > 0 {
      WriteAtFirstZeroUsesOneSlot(s[1..], r);
      assert s[k := r][1..] == s[1..][k - 1 := r];
    } else {
      assert s[k := r][1..] == s[1..];
    }
  }

  /** Every grading of an exercise that is not yet used up fills exactly
      one more slot (scores are never 0), so after as many gradings as
      slots the record is used up and is_blocked reports it. */
  lemma GradingUsesOneSlot(rec: LRecord, r: Score, n: nat)
    requires n >= 1 && |rec| > 0 && !LastUsed(rec) && r != Unused
    ensures LUsed(LegacyWrite(Some(rec), r, n).0) == LUsed(rec) + 1
  {
    if |rec| == 1 {
      assert LUsed(rec) == 0 by {
        assert rec[1..] == [];
      }
      FreshRecordUsesOne(r, n);
    } else {
      assert SearchZero(rec).Some?;
      WriteAtFirstZeroUsesOneSlot(rec, r);
    }
  }

  lemma FreshRecordUsesOne(r: Score, n: nat)
    requires n >= 1 && r != Unused
    ensures LUsed(LZeros(n)[0 := r]) == 1
  {
    var z := LZeros(n);
    ZerosUnused(z[1..]);
    assert z[0 := r][1..] == z[1..];
  }

  lemma {:induction false} ZerosUnused(s: LRecord)
    requires forall i :: 0 <= i < |s| ==> s[i] == Unused
    ensures LUsed(s) == 0
  {
    if s != [] {
      ZerosUnused(s[1..]);
    }
  }

  // ------------------------------------------- matriculation-number checks

  /** check_MNvalid: 0 when every entry equals the first, else 1. */
  method CheckMNValid(mn: seq<int>) returns (flag: int)
    ensures flag == 0 || flag == 1
    ensures flag == 0 <==> forall k :: 0 <= k < |mn| ==> mn[k] == mn[0]
  {
    flag := 0;
    var k := 0;
    while k < |mn|
      invariant 0 <= k <= |mn|
      invariant flag == 0 || flag == 1
      invariant flag == 0 <==> forall i :: 0 <= i < k ==> mn[i] == mn[0]
    {
      if mn[k] != mn[0] {
        flag := 1;
      }
      k := k + 1;
    }
  }

  /** count_different: the number of distinct values. */
  function CountDifferent(mn: seq<int>): nat
  {
    |set x | x in mn|
  }

  /** check_MNvalid reports a single number exactly when count_different
      counts at most one. */
  lemma SingleNumberIffOneDistinct(mn: seq<int>)
    ensures (forall k :: 0 <= k < |mn| ==> mn[k] == mn[0]) <==> CountDifferent(mn) <= 1
  {
    var values := set x | x in mn;
    if forall k :: 0 <= k < |mn| ==> mn[k] == mn[0] {
      if |mn| > 0 {
        assert values == {mn[0]};
      } else {
        assert values == {};
      }
    } else {
      var k :| 0 <= k < |mn| && mn[k] != mn[0];
      assert {mn[0], mn[k]} <= values;
      SubsetCard({mn[0], mn[k]}, values);
    }
  }

  lemma SubsetCard<T>(a: set<T>, b: set<T>)
    requires a <= b
    ensures |a| <= |b|
  {
    assert b == a + (b - a);
  }

  // --------------------------------------------------------- completion

  /** With scores in [0, 100] and no NaN, check_final says 1 exactly when
      every exercise 1..total has a 100 in its history. np.max reads a
      one-line history as well, so unlike is_passed check_final counts a
      100 that is the history's only entry. */
  lemma FinalIffAllPassed(history: map<TeilKey, seq<Score>>, student: string, total: nat)
    requires forall k :: k in history ==> forall i :: 0 <= i < |history[k]| ==> history[k][i].Pct? && 0.0 <= history[k][i].value <= 100.0
    ensures (forall j :: 1 <= j <= total ==> TeilKey(student, j) in history && MaxIs100(history[TeilKey(student, j)]))
            <==> (forall j :: 1 <= j <= total ==> TeilKey(student, j) in history && Full in history[TeilKey(student, j)])
  {
  }

  /** np.max of a history: None for an empty history or one holding NaN. */
  function HistoryMax(h: seq<Score>): (m: Option<real>)
    ensures m.Some? <==> |h| > 0 && forall i :: 0 <= i < |h| ==> h[i].Pct?
    ensures m.Some? ==> (forall i :: 0 <= i < |h| ==> h[i].value <= m.value) && Pct(m.value) in h
  {
    if h == [] || h[0].NaN? then None
    else if |h| == 1 then Some(h[0].value)
    else match HistoryMax(h[1..])
      case None => None
      case Some(m) => Some(if h[0].value > m then h[0].value else m)
  }

  lemma HistoryMaxIs100(h: seq<Score>)
    ensures HistoryMax(h) == Some(100.0) <==> MaxIs100(h)
  {
  }

  /** An unused slot with only used slots before it is the first one. */
  lemma {:induction false} SearchZeroIsFirst(s: LRecord, k: nat)
    requires k < |s| && s[k] == Unused
    requires forall i :: 0 <= i < k ==> s[i] != Unused
    ensures SearchZero(s) == Some(k)
  {
    if k > 0 {
      SearchZeroIsFirst(s[1..], k - 1);
    }
  }
}
