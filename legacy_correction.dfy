/** The exercise loop of the Python 2 correction: every submitted exercise
    j (1-based) is checked with is_blocked and is_passed; only one that is
    neither is graded with correct_Teil and recorded with update_stats. A
    previously blocked exercise is listed as blocked, a previously passed
    one is skipped silently. After the loop the results mail always goes
    out, the passed and blocked mails when their lists are non-empty, and
    the final mail when check_final reports every exercise passed. An
    exception (correct_Teil's IndexError) ends the run without mails. */
module LegacyCorrection {
  import opened Wrappers
  import opened Cells
  import opened Verification

  /** The parallel columns exerinfo_copy reads from the corrector: the
      exercise number, the key value, the tolerance and the variable name
      of every key row, and the number of attempt slots. */
  datatype Corrector = Corrector(teil: seq<Cell>, solutions: seq<Cell>, cerror: seq<Cell>,
                                 varNames: seq<string>, trialsMax: nat)

  predicate WellFormed(c: Corrector)
  {
    |c.solutions| == |c.teil| && |c.cerror| == |c.teil| && |c.varNames| == |c.teil| && c.trialsMax >= 1
  }

  /** The attempt files: block records, histories and matriculation logs. */
  datatype LFiles = LFiles(blocks: map<TeilKey, LRecord>, history: map<TeilKey, seq<Score>>, matNums: map<string, seq<int>>)

  function LSnapshot(store: LegacyStore): LFiles
    reads store
  {
    LFiles(store.blocks, store.history, store.matNums)
  }

  /** What became of one submitted exercise. */
  datatype LOutcome =
    | BlockedBefore
    | PassedBefore
    | Corrected(result: TeilResult, blocked: bool, passed: bool)
    | Raised

  /** What correct_Teil returns for exercise j, or None for IndexError. */
  function TeilOf(c: Corrector, exerSol: seq<Cell>, j: int): Option<TeilResult>
    requires WellFormed(c)
  {
    var rows := ActiveRows(c.teil, j, |c.teil|);
    if !Inside(rows, |exerSol|) then None
    else
      InsideAll(rows, |exerSol|);
      ActiveRowsExact(c.teil, j, |c.teil|);
      var resol := Verdicts(exerSol, c.solutions, c.cerror, rows);
      Some(TeilResult(TeilScore(resol), RowNames(c.varNames, rows), resol))
  }

  /** Every row number is below n. */
  predicate Inside(rows: seq<nat>, n: nat)
    decreases |rows|
  {
    rows == [] || (rows[0] < n && Inside(rows[1..], n))
  }

  lemma {:induction false} InsideAll(rows: seq<nat>, n: nat)
    ensures Inside(rows, n) <==> forall i :: 0 <= i < |rows| ==> rows[i] < n
    decreases |rows|
  {
    if rows != [] {
      InsideAll(rows[1..], n);
      assert forall i :: 1 <= i < |rows| ==> rows[i] == rows[1..][i - 1];
    }
  }

  /** correct_Teil raises IndexError exactly when a key row of exercise j
      lies beyond the student's values. */
  lemma TeilOfRaises(c: Corrector, exerSol: seq<Cell>, j: int)
    requires WellFormed(c)
    ensures TeilOf(c, exerSol, j).None? <==> exists k :: 0 <= k < |c.teil| && InTeil(c.teil[k], j) && k >= |exerSol|
  {
    var rows := ActiveRows(c.teil, j, |c.teil|);
    InsideAll(rows, |exerSol|);
    ActiveRowsExact(c.teil, j, |c.teil|);
    if exists k :: 0 <= k < |c.teil| && InTeil(c.teil[k], j) && k >= |exerSol| {
      var k :| 0 <= k < |c.teil| && InTeil(c.teil[k], j) && k >= |exerSol|;
      assert k in rows;
    }
  }

  /** What the correct_Teil method returns is TeilOf. */
  lemma TeilOfIs(c: Corrector, exerSol: seq<Cell>, j: int, r: Option<TeilResult>)
    requires WellFormed(c)
    requires r.None? <==> exists k :: 0 <= k < |c.teil| && InTeil(c.teil[k], j) && k >= |exerSol|
    requires r.Some? ==>
               var rows := ActiveRows(c.teil, j, |c.teil|);
               && (forall i :: 0 <= i < |rows| ==> rows[i] < |c.teil| && rows[i] < |exerSol|)
               && r.value.names == RowNames(c.varNames, rows)
               && r.value.resol == Verdicts(exerSol, c.solutions, c.cerror, rows)
               && r.value.score == TeilScore(r.value.resol)
    ensures r == TeilOf(c, exerSol, j)
  {
    TeilOfRaises(c, exerSol, j);
  }

  /** is_blocked's answer. */
  predicate BlockedNow(f: LFiles, k: TeilKey, n: nat)
  {
    k in f.blocks && !OneLine(f.blocks[k]) && LastUsed(LResize(f.blocks[k], n))
  }

  /** is_passed's answer. */
  predicate PassedNow(f: LFiles, k: TeilKey)
  {
    k in f.history && !OneLine(f.history[k]) && Full in f.history[k]
  }

  /** is_blocked's effect: a stored record that is not one line is padded
      or cut to n slots. */
  function Probed(f: LFiles, k: TeilKey, n: nat): LFiles
  {
    if k in f.blocks && !OneLine(f.blocks[k]) then f.(blocks := f.blocks[k := LResize(f.blocks[k], n)]) else f
  }

  function Stored(f: LFiles, k: TeilKey): Option<LRecord>
  {
    if k in f.blocks then Some(f.blocks[k]) else None
  }

  /** update_stats's effect. */
  function Recorded(f: LFiles, k: TeilKey, r: Score, n: nat, matNum: int): LFiles
    requires n >= 1
  {
    var h := if k in f.history then f.history[k] else [];
    var m := if k.student in f.matNums then f.matNums[k.student] else [];
    LFiles(f.blocks[k := LegacyWrite(Stored(f, k), r, n).0], f.history[k := h + [r]], f.matNums[k.student := m + [matNum]])
  }

  /** correct_Teil and update_stats for exercise number j, on the files
      is_blocked left. */
  function LGrade(probed: LFiles, c: Corrector, student: string, exerSol: seq<Cell>, j: int, matNum: int): (LFiles, LOutcome)
    requires WellFormed(c)
  {
    var k := TeilKey(student, j);
    match TeilOf(c, exerSol, j)
    case None => (probed, Raised)
    case Some(t) =>
      (Recorded(probed, k, t.score, c.trialsMax, matNum),
       Corrected(t, LegacyWrite(Stored(probed, k), t.score, c.trialsMax).1, t.score == Full))
  }

  /** One turn of the loop for exercise number j. */
  function LStep(f: LFiles, c: Corrector, student: string, exerSol: seq<Cell>, j: int, matNum: int): (LFiles, LOutcome)
    requires WellFormed(c)
  {
    var k := TeilKey(student, j);
    var probed := Probed(f, k, c.trialsMax);
    if !BlockedNow(f, k, c.trialsMax) && !PassedNow(f, k) then LGrade(probed, c, student, exerSol, j, matNum)
    else if BlockedNow(f, k, c.trialsMax) then (probed, BlockedBefore)
    else (probed, PassedBefore)
  }

  /** A turn of the loop as a function of the files and the exercise
      number. */
  type LTurnFn = (LFiles, int) -> (LFiles, LOutcome)

  /** The turn of one submission: LStep with its corrector, student,
      values and matriculation number fixed. */
  function Stepper(c: Corrector, student: string, exerSol: seq<Cell>, matNum: int): LTurnFn
    requires WellFormed(c)
  {
    (f: LFiles, j: int) => LStep(f, c, student, exerSol, j, matNum)
  }

  /** step agrees with LStep for this submission; the loop methods carry
      this instead of Stepper, so LStep is unfolded only where a turn is
      taken. */
  ghost predicate IsStepper(step: LTurnFn, c: Corrector, student: string, exerSol: seq<Cell>, matNum: int)
    requires WellFormed(c)
  {
    forall f: LFiles, j: int {:trigger LStep(f, c, student, exerSol, j, matNum)} ::
      step(f, j) == LStep(f, c, student, exerSol, j, matNum)
  }

  /** The first n submitted exercises (0-based indices, j = i + 1), in
      order, each on the files the previous ones left. */
  function LRun(step: LTurnFn, f0: LFiles, subm: seq<int>, n: nat): (r: (LFiles, seq<LOutcome>))
    requires n <= |subm|
    ensures |r.1| == n
  {
    if n == 0 then (f0, [])
    else
      var prev := LRun(step, f0, subm, n - 1);
      var next := step(prev.0, subm[n - 1] + 1);
      (next.0, prev.1 + [next.1])
  }

  /** The length of the prefix up to and including the first exception. */
  function LStop(outs: seq<LOutcome>): (r: nat)
    ensures r <= |outs|
    ensures Raised in outs ==> 0 < r && outs[r - 1].Raised? && Raised !in outs[..r - 1]
    ensures Raised !in outs ==> r == |outs|
  {
    if outs == [] then 0
    else if outs[0].Raised? then 1
    else
      var r := 1 + LStop(outs[1..]);
      assert outs == [outs[0]] + outs[1..];
      assert Raised in outs[1..] ==> outs[..r - 1] == [outs[0]] + outs[1..][..r - 2];
      r
  }

  /** Which list an outcome puts its exercise number on. */
  datatype LList = PassedList | BlockedList

  predicate Listed(out: LOutcome, l: LList)
  {
    match l
    case PassedList => out.Corrected? && out.passed
    case BlockedList => out.BlockedBefore? || (out.Corrected? && out.blocked)
  }

  /** j_passed or j_blocked: the 1-based numbers of the listed exercises,
      in loop order. */
  function Numbers(subm: seq<int>, outs: seq<LOutcome>, l: LList): seq<int>
    requires |outs| <= |subm|
  {
    if outs == [] then []
    else
      var n := |outs| - 1;
      Numbers(subm, outs[..n], l) + (if Listed(outs[n], l) then [subm[n] + 1] else [])
  }

  /** The results of the graded exercises with their numbers, in order;
      the results mail holds one table per entry. */
  function Results(subm: seq<int>, outs: seq<LOutcome>): seq<(int, TeilResult)>
    requires |outs| <= |subm|
  {
    if outs == [] then []
    else
      var n := |outs| - 1;
      Results(subm, outs[..n]) + (if outs[n].Corrected? then [(subm[n] + 1, outs[n].result)] else [])
  }

  /** check_final's answer on a history. */
  predicate AllPassed(history: map<TeilKey, seq<Score>>, student: string, total: nat)
  {
    forall j :: 1 <= j <= total ==> TeilKey(student, j) in history && MaxIs100(history[TeilKey(student, j)])
  }

  datatype LMail = ResultsMail(results: seq<(int, TeilResult)>) | PassedMail(passed: seq<int>) | BlockedMail(blocked: seq<int>) | FinalMail

  /** The mails after the loop, in the order they are sent. */
  function LMails(results: seq<(int, TeilResult)>, passed: seq<int>, blocked: seq<int>, final: bool): (r: seq<LMail>)
    ensures |r| >= 1 && r[0] == ResultsMail(results)
    ensures PassedMail(passed) in r <==> passed != []
    ensures BlockedMail(blocked) in r <==> blocked != []
    ensures FinalMail in r <==> final
  {
    [ResultsMail(results)]
    + (if passed != [] then [PassedMail(passed)] else [])
    + (if blocked != [] then [BlockedMail(blocked)] else [])
    + (if final then [FinalMail] else [])
  }

  // ------------------------------------------------------------ methods

  /** correction: grades the submitted exercises subm (0-based, ascending)
      of one student, records them, and returns the mails; None when an
      exception ended the loop, with the files as the exercises before it
      left them. */
  method Correction(store: LegacyStore, c: Corrector, student: string, exerSol: seq<Cell>, subm: seq<int>,
                    matNum: int, total: nat) returns (mails: Option<seq<LMail>>)
    requires WellFormed(c)
    modifies store
    ensures var step := Stepper(c, student, exerSol, matNum);
            var run := LRun(step, old(LSnapshot(store)), subm, |subm|);
            && LSnapshot(store) == LRun(step, old(LSnapshot(store)), subm, LStop(run.1)).0
            && (mails.None? <==> Raised in run.1)
            && (mails.Some? ==> mails.value == LMails(Results(subm, run.1), Numbers(subm, run.1, PassedList),
                                                      Numbers(subm, run.1, BlockedList), AllPassed(run.0.history, student, total)))
  {
    ghost var f0 := LSnapshot(store);
    ghost var step := Stepper(c, student, exerSol, matNum);
    var results, passed, blocked, raised :=
      CorrectTeile(store, c, student, exerSol, subm, matNum, step, f0, LRun(step, f0, subm, |subm|).1);
    if raised {
      return None;
    }
    var final := store.CheckFinal(student, total);
    mails := Some(LMails(results, passed, blocked, final == 1));
  }

  /** The loop over subm up to the first exception; f0 is the files before
      the loop and all the outcomes of every submitted exercise. */
  method CorrectTeile(store: LegacyStore, c: Corrector, student: string, exerSol: seq<Cell>, subm: seq<int>, matNum: int,
                      ghost step: LTurnFn, ghost f0: LFiles, ghost all: seq<LOutcome>)
    returns (results: seq<(int, TeilResult)>, passed: seq<int>, blocked: seq<int>, raised: bool)
    requires WellFormed(c) && IsStepper(step, c, student, exerSol, matNum)
    requires f0 == LSnapshot(store) && all == LRun(step, f0, subm, |subm|).1
    modifies store
    ensures LSnapshot(store) == LRun(step, f0, subm, LStop(all)).0
    ensures raised <==> Raised in all
    ensures !raised ==> results == Results(subm, all) && passed == Numbers(subm, all, PassedList)
                        && blocked == Numbers(subm, all, BlockedList)
  {
    raised := false;
    ghost var outs: seq<LOutcome> := [];
    results, passed, blocked := [], [], [];
    var idx := 0;
    while idx < |subm|
      invariant 0 <= idx <= |subm|
      invariant LSnapshot(store) == LRun(step, f0, subm, idx).0
      invariant outs == LRun(step, f0, subm, idx).1
      invariant Raised !in outs
      invariant results == Results(subm, outs) && passed == Numbers(subm, outs, PassedList)
      invariant blocked == Numbers(subm, outs, BlockedList)
    {
      var out;
      out, results, passed, blocked := Turn(store, c, student, exerSol, subm, matNum, idx, step, f0, all, outs, results, passed, blocked);
      if out.Raised? {
        return results, passed, blocked, true;
      }
      outs := outs + [out];
      idx := idx + 1;
    }
    assert outs == all;
  }

  /** One turn of the loop: the exercise, then the lists. */
  method Turn(store: LegacyStore, c: Corrector, student: string, exerSol: seq<Cell>, subm: seq<int>, matNum: int, idx: nat,
              ghost step: LTurnFn, ghost f0: LFiles, ghost all: seq<LOutcome>, ghost outs: seq<LOutcome>,
              results: seq<(int, TeilResult)>, passed: seq<int>, blocked: seq<int>)
    returns (out: LOutcome, results': seq<(int, TeilResult)>, passed': seq<int>, blocked': seq<int>)
    requires WellFormed(c) && IsStepper(step, c, student, exerSol, matNum) && idx < |subm|
    requires LSnapshot(store) == LRun(step, f0, subm, idx).0
    requires outs == LRun(step, f0, subm, idx).1 && Raised !in outs
    requires all == LRun(step, f0, subm, |subm|).1
    requires results == Results(subm, outs) && passed == Numbers(subm, outs, PassedList)
    requires blocked == Numbers(subm, outs, BlockedList)
    modifies store
    ensures LSnapshot(store) == LRun(step, f0, subm, idx + 1).0
    ensures LRun(step, f0, subm, idx + 1).1 == outs + [out]
    ensures out.Raised? ==> Raised in all && LSnapshot(store) == LRun(step, f0, subm, LStop(all)).0
    ensures !out.Raised? ==> Raised !in outs + [out]
    ensures results' == Results(subm, outs + [out]) && passed' == Numbers(subm, outs + [out], PassedList)
    ensures blocked' == Numbers(subm, outs + [out], BlockedList)
  {
    out := CorrectOne(store, c, student, exerSol, subm[idx] + 1, matNum);
    results', passed', blocked' := TallyOne(subm, outs, idx, out, results, passed, blocked);
    ghost var next := LRun(step, f0, subm, idx + 1).1;
    assert next == outs + [out];
    LRunPrefix(step, f0, subm, idx + 1, |subm|);
    assert all[..idx + 1] == next;
    if out.Raised? {
      LStopAt(all, outs, out);
      assert LStop(all) == idx + 1;
    }
  }

  /** The body of the loop for exercise number j: is_blocked, is_passed,
      and correct_Teil with update_stats when neither holds. */
  method CorrectOne(store: LegacyStore, c: Corrector, student: string, exerSol: seq<Cell>, j: int, matNum: int)
    returns (out: LOutcome)
    requires WellFormed(c)
    modifies store
    ensures (LSnapshot(store), out) == LStep(old(LSnapshot(store)), c, student, exerSol, j, matNum)
  {
    var key := TeilKey(student, j);
    var flagBlocked := store.IsBlocked(key, c.trialsMax);
    var flagPassed := store.IsPassed(key);
    if flagBlocked == 0 && flagPassed == 0 {
      out := GradeOne(store, c, student, exerSol, j, matNum);
    } else if flagBlocked == 1 {
      out := BlockedBefore;
    } else {
      out := PassedBefore;
    }
  }

  /** The grading branch: correct_Teil, then update_stats unless it
      raised. */
  method GradeOne(store: LegacyStore, c: Corrector, student: string, exerSol: seq<Cell>, j: int, matNum: int)
    returns (out: LOutcome)
    requires WellFormed(c)
    modifies store
    ensures (LSnapshot(store), out) == LGrade(old(LSnapshot(store)), c, student, exerSol, j, matNum)
  {
    var r := CorrectTeil(c.teil, c.solutions, c.cerror, exerSol, j, c.varNames);
    TeilOfIs(c, exerSol, j, r);
    if r.None? {
      return Raised;
    }
    var b, p := store.UpdateStats(TeilKey(student, j), r.value.score, c.trialsMax, matNum);
    out := Corrected(r.value, b == 1, p == 1);
  }

  /** Appends the exercise just finished to the lists it belongs on. */
  method TallyOne(subm: seq<int>, ghost outs: seq<LOutcome>, idx: nat, out: LOutcome,
                  results: seq<(int, TeilResult)>, passed: seq<int>, blocked: seq<int>)
    returns (results': seq<(int, TeilResult)>, passed': seq<int>, blocked': seq<int>)
    requires idx == |outs| < |subm|
    requires results == Results(subm, outs) && passed == Numbers(subm, outs, PassedList)
    requires blocked == Numbers(subm, outs, BlockedList)
    ensures results' == Results(subm, outs + [out]) && passed' == Numbers(subm, outs + [out], PassedList)
    ensures blocked' == Numbers(subm, outs + [out], BlockedList)
  {
    assert (outs + [out])[..idx] == outs;
    var j := subm[idx] + 1;
    results', passed', blocked' := results, passed, blocked;
    if out.Corrected? {
      results' := results' + [(j, out.result)];
      if out.blocked {
        blocked' := blocked' + [j];
      }
      if out.passed {
        passed' := passed' + [j];
      }
    } else if out.BlockedBefore? {
      blocked' := blocked' + [j];
    }
  }

  // ------------------------------------------------------------- lemmas

  /** The run of n exercises extends the run of m. */
  lemma {:induction false} LRunPrefix(step: LTurnFn, f0: LFiles, subm: seq<int>, m: nat, n: nat)
    requires m <= n <= |subm|
    ensures LRun(step, f0, subm, n).1[..m] == LRun(step, f0, subm, m).1
  {
    if m < n {
      LRunPrefix(step, f0, subm, m, n - 1);
      LRunSnoc(step, f0, subm, n);
      var prev := LRun(step, f0, subm, n - 1).1;
      var next := LRun(step, f0, subm, n).1;
      assert next[..m] == next[..n - 1][..m];
    }
  }

  lemma LRunSnoc(step: LTurnFn, f0: LFiles, subm: seq<int>, n: nat)
    requires 0 < n <= |subm|
    ensures LRun(step, f0, subm, n).1[..n - 1] == LRun(step, f0, subm, n - 1).1
  {
  }

  /** An exception right after a prefix without one ends the prefix LStop
      measures. */
  lemma LStopAt(all: seq<LOutcome>, outs: seq<LOutcome>, out: LOutcome)
    requires |outs| < |all| && all[..|outs| + 1] == outs + [out]
    requires out.Raised? && Raised !in outs
    ensures LStop(all) == |outs| + 1 && Raised in all
  {
    var idx := |outs|;
    assert all[..idx] == outs;
    assert all[idx] == out && all[idx] in all;
  }

  /** An exercise is graded only when neither blocked nor passed; a
      blocked one is listed as blocked whether or not it was passed; a
      passed one is skipped silently. Only a grading touches the history
      and the matriculation log. */
  lemma StepDecision(f: LFiles, c: Corrector, student: string, exerSol: seq<Cell>, j: int, matNum: int)
    requires WellFormed(c)
    ensures var (f', out) := LStep(f, c, student, exerSol, j, matNum);
            var k := TeilKey(student, j);
            && ((out.Corrected? || out.Raised?) <==> !BlockedNow(f, k, c.trialsMax) && !PassedNow(f, k))
            && (Listed(out, BlockedList) <==> BlockedNow(f, k, c.trialsMax) || (out.Corrected? && out.blocked))
            && (out.PassedBefore? ==> f' == Probed(f, k, c.trialsMax) && !Listed(out, BlockedList) && !Listed(out, PassedList))
            && (!out.Corrected? ==> f'.history == f.history && f'.matNums == f.matNums)
            && (out.Corrected? ==> k in f'.history && |f'.history[k]| == (if k in f.history then |f.history[k]| else 0) + 1)
  {
  }

  /** An exercise graded to 100 on top of an earlier entry of its history
      is never graded again: the next turn for the same number finds it
      passed (or blocked, when the 100 landed in the last slot). */
  lemma NoRegradingAfterPass(f: LFiles, c: Corrector, student: string, exerSol: seq<Cell>, exerSol': seq<Cell>, j: int, matNum: int)
    requires WellFormed(c)
    requires TeilKey(student, j) in f.history && |f.history[TeilKey(student, j)]| >= 1
    requires var out := LStep(f, c, student, exerSol, j, matNum).1; out.Corrected? && out.passed
    ensures var out' := LStep(LStep(f, c, student, exerSol, j, matNum).0, c, student, exerSol', j, matNum).1;
            out'.PassedBefore? || out'.BlockedBefore?
  {
    var k := TeilKey(student, j);
    var f' := LStep(f, c, student, exerSol, j, matNum).0;
    assert f'.history[k][|f'.history[k]| - 1] == Full;
    assert PassedNow(f', k);
  }

  /** The first grading of an exercise, even to 100, is followed by a
      second one: the history then holds one line, which is_passed cannot
      read, and the fresh block record is not used up. */
  lemma FirstPassIsRegraded(f: LFiles, c: Corrector, student: string, exerSol: seq<Cell>, exerSol': seq<Cell>, j: int, matNum: int)
    requires WellFormed(c)
    requires TeilKey(student, j) !in f.history && TeilKey(student, j) !in f.blocks
    requires var out := LStep(f, c, student, exerSol, j, matNum).1; out.Corrected? && out.passed
    ensures var out' := LStep(LStep(f, c, student, exerSol, j, matNum).0, c, student, exerSol', j, matNum).1;
            out'.Corrected? || out'.Raised?
  {
    var k := TeilKey(student, j);
    var n := c.trialsMax;
    var f' := LStep(f, c, student, exerSol, j, matNum).0;
    assert f'.history[k] == [Full];
    assert f'.blocks[k] == LZeros(n)[0 := Full];
    assert !BlockedNow(f', k, n) by {
      if n > 1 {
        assert LResize(f'.blocks[k], n) == f'.blocks[k];
        assert f'.blocks[k][n - 1] == Unused;
      }
    }
    assert !PassedNow(f', k);
  }

  /** An exercise blocked by its grading is reported blocked on the next
      turn, with the same number of slots. */
  lemma NoRegradingAfterBlock(f: LFiles, c: Corrector, student: string, exerSol: seq<Cell>, exerSol': seq<Cell>, j: int, matNum: int)
    requires WellFormed(c)
    requires var out := LStep(f, c, student, exerSol, j, matNum).1; out.Corrected? && out.blocked
    ensures LStep(LStep(f, c, student, exerSol, j, matNum).0, c, student, exerSol', j, matNum).1 == BlockedBefore
  {
    var k := TeilKey(student, j);
    var n := c.trialsMax;
    var probed := Probed(f, k, n);
    var t := TeilOf(c, exerSol, j).value;
    assert k in probed.blocks && |probed.blocks[k]| == n && n > 1;
    var w := LegacyWrite(Stored(probed, k), t.score, n).0;
    assert |w| == n;
    assert LResize(w, n) == w;
    assert BlockedNow(LStep(f, c, student, exerSol, j, matNum).0, k, n);
  }

  /** A number is on j_passed or j_blocked exactly when some submitted
      exercise with that number ended on that list. */
  lemma {:induction false} NumbersExact(subm: seq<int>, outs: seq<LOutcome>, l: LList, x: int)
    requires |outs| <= |subm|
    ensures x in Numbers(subm, outs, l) <==> exists i :: 0 <= i < |outs| && Listed(outs[i], l) && x == subm[i] + 1
  {
    if outs != [] {
      var n := |outs| - 1;
      NumbersExact(subm, outs[..n], l, x);
      if x in Numbers(subm, outs, l) && x !in Numbers(subm, outs[..n], l) {
        assert Listed(outs[n], l) && x == subm[n] + 1;
      }
      if exists i :: 0 <= i < |outs| && Listed(outs[i], l) && x == subm[i] + 1 {
        var i :| 0 <= i < |outs| && Listed(outs[i], l) && x == subm[i] + 1;
        if i < n {
          assert outs[..n][i] == outs[i];
        }
      }
    }
  }

  /** The final mail goes out exactly when every exercise 1..total has a
      100 in its history, given that histories hold percentages only. */
  lemma FinalMailIffAllPassed(history: map<TeilKey, seq<Score>>, student: string, total: nat,
                              results: seq<(int, TeilResult)>, passed: seq<int>, blocked: seq<int>)
    requires forall k :: k in history ==> forall i :: 0 <= i < |history[k]| ==> history[k][i].Pct? && 0.0 <= history[k][i].value <= 100.0
    ensures FinalMail in LMails(results, passed, blocked, AllPassed(history, student, total))
            <==> forall j :: 1 <= j <= total ==> TeilKey(student, j) in history && Full in history[TeilKey(student, j)]
  {
    FinalIffAllPassed(history, student, total);
  }
}
