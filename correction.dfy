/** The per-submission correction loop of the current package's main
    (and of the `src` package's main, its older variant): every exercise
    of a submitted file is skipped, reported or graded against the answer
    key, graded ones are recorded in the attempt store, and the student is
    sent a set of notices. */
module Correction {
  import opened Wrappers
  import opened Cells
  import opened Comparator
  import opened Attempts
  import opened Store
  import opened CorrectorSheet
  import opened Worksheet
  import opened Lists

  /** What an AttemptStore holds, as a value. */
  datatype Files = Files(blocks: map<Key, Record>, scores: map<Key, seq<int>>, matNums: map<string, seq<int>>)

  /** A student file: its sender, its matriculation number and, per
      exercise, the values typed into its sub-tasks. */
  datatype Submission = Submission(student: string, matNum: int, solutions: seq<seq<Cell>>)

  /** What update_stats returned for a graded exercise. */
  datatype Recorded = Recorded(percentage: int, blocked: bool, passed: bool)

  /** What became of one exercise of a submission. */
  datatype Outcome =
    | Incomplete                 // a sub-task left empty: skipped without a trace
    | WasBlocked                 // blocked by earlier attempts: listed, not graded
    | WasPassed                  // passed earlier: listed, not graded
    | Tampered                   // sub-task count differs from the key
    | Graded(correct: seq<bool>, names: seq<Cell>, recorded: Option<Recorded>)
    | Crashed                    // an exception escaped (src only)

  /** The mails a submission produces, in the order they are sent. */
  datatype Notice =
    | Malformed
    | Results(exercises: seq<int>)
    | PassedList(exercises: seq<int>)
    | BlockedList(exercises: seq<int>)
    | Congrats
    | Erroneous(exercises: seq<int>)
    | NothingCorrected

  // ------------------------------------------------------ one exercise

  function Lookup(m: map<Key, Record>, k: Key): Option<Record>
  {
    if k in m then Some(m[k]) else None
  }

  /** The record after get_stats: a stored one is cut or padded to
      maxAttempts slots, a missing one stays missing. */
  function Seen(o: Option<Record>, maxAttempts: nat): Option<Record>
  {
    match o
    case None => None
    case Some(s) => Some(Resize(s, maxAttempts))
  }

  /** What get_stats reports. */
  function Prior(o: Option<Record>, maxAttempts: nat): (bool, bool)
  {
    match Seen(o, maxAttempts)
    case None => (false, false)
    case Some(s) => Stats(s)
  }

  /** The record update_stats starts from after get_stats: the resized
      stored one, or maxAttempts unused slots. */
  function Base(o: Option<Record>, maxAttempts: nat): (r: Record)
    ensures |r| == maxAttempts
  {
    match Seen(o, maxAttempts)
    case None => Zeros(maxAttempts)
    case Some(s) => s
  }

  /** One compare() call: the current package never raises, the `src`
      one raises on a text expected value and a non-text attempt. */
  function Verdict(g: Generation, attempt: Cell, e: KeyEntry): Option<bool>
  {
    if g.Current? then Some(Compare(attempt, e.value, e.rel, e.abs))
    else CompareSrc(attempt, e.value, e.rel, e.abs)
  }

  /** The correct-vector of an exercise, or None when a comparison raised. */
  function Matches(g: Generation, sol: seq<Cell>, exp: seq<KeyEntry>): Option<seq<bool>>
    requires |sol| == |exp|
  {
    if forall k :: 0 <= k < |sol| ==> Verdict(g, sol[k], exp[k]).Some? then
      Some(seq(|sol|, k requires 0 <= k < |sol| => Verdict(g, sol[k], exp[k]).value))
    else None
  }

  /** The variable names of an exercise's key, in row order. */
  function Names(exp: seq<KeyEntry>): (r: seq<Cell>)
    ensures |r| == |exp| && forall k :: 0 <= k < |exp| ==> r[k] == exp[k].name
  {
    seq(|exp|, k requires 0 <= k < |exp| => exp[k].name)
  }

  /** The number of matched sub-tasks. */
  function Count(c: seq<bool>): (r: nat)
    ensures r <= |c|
    ensures r == |c| <==> forall k :: 0 <= k < |c| ==> c[k]
    ensures r == 0 <==> forall k :: 0 <= k < |c| ==> !c[k]
  {
    if c == [] then 0
    else
      var rest := Count(c[1..]);
      assert forall k :: 1 <= k < |c| ==> c[k] == c[1..][k - 1];
      (if c[0] then 1 else 0) + rest
  }

  /** int(sum(correct) / len(correct) * 100), as an integer floor. */
  function Percent(c: seq<bool>): (r: int)
    requires |c| > 0
    ensures 0 <= r <= 100
    ensures r == 100 <==> forall k :: 0 <= k < |c| ==> c[k]
    ensures r == 0 <==> 100 * Count(c) < |c|
  {
    PercentBounds(Count(c), |c|);
    Count(c) * 100 / |c|
  }

  lemma PercentBounds(a: nat, b: nat)
    requires 0 < b && a <= b
    ensures 0 <= a * 100 / b <= 100
    ensures a * 100 / b == 100 <==> a == b
    ensures a * 100 / b == 0 <==> 100 * a < b
  {
    var q := a * 100 / b;
    var r := a * 100 % b;
    assert a * 100 == q * b + r && 0 <= r < b;
    if q < 0 {
      MulNonneg(-q - 1, b);
    }
    if q > 100 {
      MulNonneg(q - 101, b);
    }
    if q < 100 && a == b {
      MulNonneg(99 - q, b);
    }
    if q == 100 && a < b {
      MulNonneg(q - 100, b);
    }
    if q > 0 && 100 * a < b {
      MulNonneg(q - 1, b);
    }
  }

  lemma MulNonneg(x: int, y: int)
    requires 0 <= x && 0 <= y
    ensures 0 <= x * y
  {
  }

  /** The exercise loop's body, on the stored record o of the exercise:
      a sub-task left empty skips the exercise before anything is read;
      then get_stats decides blocked (first) or passed; then the sub-task
      counts must agree; then every sub-task is compared and, when there
      is at least one, the percentage is recorded. The `src` package has
      no guard against an exercise without sub-tasks and divides by
      zero. */
  function Judge(g: Generation, o: Option<Record>, sol: seq<Cell>, exp: seq<KeyEntry>, maxAttempts: nat): Outcome
  {
    if Empty in sol then Incomplete
    else if Prior(o, maxAttempts).0 then WasBlocked
    else if Prior(o, maxAttempts).1 then WasPassed
    else if |sol| != |exp| then Tampered
    else Assess(g, o, sol, exp, maxAttempts)
  }

  /** The grading part of the loop body, once get_stats found the
      exercise neither blocked nor passed and the counts agree. */
  function Assess(g: Generation, o: Option<Record>, sol: seq<Cell>, exp: seq<KeyEntry>, maxAttempts: nat): Outcome
    requires |sol| == |exp|
  {
    match Matches(g, sol, exp)
    case None => Crashed
    case Some(correct) =>
      if |correct| == 0 then
        (if g.Src? then Crashed else Graded(correct, Names(exp), None))
      else
        var p := Percent(correct);
        var flags := UpdateFlags(Base(o, maxAttempts), p);
        Graded(correct, Names(exp), Some(Recorded(p, flags.0, flags.1)))
  }

  /** The exercise's record after the loop body: untouched when skipped
      early, resized by get_stats otherwise, and with the percentage in
      its first unused slot when graded. */
  function Effect(o: Option<Record>, out: Outcome, maxAttempts: nat): Option<Record>
  {
    match out
    case Incomplete => o
    case Graded(_, _, Some(r)) => Some(Write(Base(o, maxAttempts), r.percentage))
    case _ => Seen(o, maxAttempts)
  }

  /** Appends x to the log kept under k. */
  function Logged<K>(m: map<K, seq<int>>, k: K, x: int): map<K, seq<int>>
  {
    m[k := (if k in m then m[k] else []) + [x]]
  }

  /** The store after get_stats: the record, when there is one, cut or
      padded to maxAttempts slots. */
  function AfterStats(f: Files, k: Key, maxAttempts: nat): Files
  {
    if k in f.blocks then f.(blocks := f.blocks[k := Resize(f.blocks[k], maxAttempts)]) else f
  }

  /** The store after update_stats: the percentage in the first unused
      slot of the record (a fresh one when missing), and both logs
      extended. */
  function AfterUpdate(f: Files, k: Key, percentage: int, maxAttempts: nat, matNum: int): Files
  {
    var s := if k in f.blocks then f.blocks[k] else Zeros(maxAttempts);
    Files(f.blocks[k := Write(s, percentage)], Logged(f.scores, k, percentage), Logged(f.matNums, k.student, matNum))
  }

  /** The store after one exercise of the loop. */
  function Apply(f: Files, k: Key, out: Outcome, maxAttempts: nat, matNum: int): Files
  {
    match out
    case Incomplete => f
    case Graded(_, _, Some(r)) => AfterUpdate(AfterStats(f, k, maxAttempts), k, r.percentage, maxAttempts, matNum)
    case _ => AfterStats(f, k, maxAttempts)
  }

  /** One exercise changes its own record as Effect says and no other. */
  lemma ApplyEffect(f: Files, k: Key, out: Outcome, maxAttempts: nat, matNum: int, k': Key)
    ensures Lookup(Apply(f, k, out, maxAttempts, matNum).blocks, k') ==
            if k' == k then Effect(Lookup(f.blocks, k), out, maxAttempts) else Lookup(f.blocks, k')
  {
  }

  // ------------------------------------------------------ the whole file

  /** One exercise of the loop: its outcome, judged on its own record,
      and the store it leaves. */
  function Exercise(g: Generation, maxAttempts: nat, matNum: int, f: Files, k: Key, sol: seq<Cell>, exp: seq<KeyEntry>): (Files, Outcome)
  {
    var out := Judge(g, Lookup(f.blocks, k), sol, exp, maxAttempts);
    (Apply(f, k, out, maxAttempts, matNum), out)
  }

  /** An exercise of the loop as a function of the store, the record's
      key, the student's values and the key's entries. */
  type ExerciseFn = (Files, Key, seq<Cell>, seq<KeyEntry>) -> (Files, Outcome)

  /** The exercises of one run: Exercise with its generation, attempt
      count and matriculation number fixed. */
  function Corrects(g: Generation, maxAttempts: nat, matNum: int): ExerciseFn
  {
    (f: Files, k: Key, sol: seq<Cell>, exp: seq<KeyEntry>) => Exercise(g, maxAttempts, matNum, f, k, sol, exp)
  }

  /** step agrees with Exercise; the loop methods carry this instead of
      Corrects, so Exercise is unfolded only where an exercise is done. */
  ghost predicate IsCorrects(step: ExerciseFn, g: Generation, maxAttempts: nat, matNum: int)
  {
    forall f: Files, k: Key, sol: seq<Cell>, exp: seq<KeyEntry> {:trigger Exercise(g, maxAttempts, matNum, f, k, sol, exp)} ::
      step(f, k, sol, exp) == Exercise(g, maxAttempts, matNum, f, k, sol, exp)
  }

  /** The first n exercises of a submission, in order, each on the store
      its predecessors left. */
  function Run(step: ExerciseFn, f0: Files, sub: Submission, key: seq<seq<KeyEntry>>, n: nat): (r: (Files, seq<Outcome>))
    requires n <= |sub.solutions| == |key|
    ensures |r.1| == n
  {
    if n == 0 then (f0, [])
    else
      var prev := Run(step, f0, sub, key, n - 1);
      var next := step(prev.0, Key(sub.student, n - 1), sub.solutions[n - 1], key[n - 1]);
      (next.0, prev.1 + [next.1])
  }

  /** The length of the prefix up to and including the first crash. */
  function CrashPoint(outs: seq<Outcome>): (r: nat)
    ensures r <= |outs|
    ensures Crashed in outs ==> 0 < r && outs[r - 1].Crashed? && Crashed !in outs[..r - 1]
    ensures Crashed !in outs ==> r == |outs|
  {
    if outs == [] then 0
    else if outs[0].Crashed? then 1
    else
      var r := 1 + CrashPoint(outs[1..]);
      assert outs == [outs[0]] + outs[1..];
      assert Crashed in outs[1..] ==> outs[..r - 1] == [outs[0]] + outs[1..][..r - 2];
      r
  }

  /** The lists main keeps. */
  datatype Kind = Pass | Block | Tamper | Grade

  predicate Has(out: Outcome, kind: Kind)
  {
    match kind
    case Pass => out.WasPassed? || (out.Graded? && out.recorded.Some? && out.recorded.value.passed)
    case Block => out.WasBlocked? || (out.Graded? && out.recorded.Some? && out.recorded.value.blocked)
    case Tamper => out.Tampered?
    case Grade => out.Graded?
  }

  /** Which outcomes are of a kind. */
  function Flags(outs: seq<Outcome>, kind: Kind): (b: seq<bool>)
    ensures |b| == |outs| && forall i :: 0 <= i < |outs| ==> b[i] == Has(outs[i], kind)
  {
    seq(|outs|, i requires 0 <= i < |outs| => Has(outs[i], kind))
  }

  /** The exercise indices (plus offset) whose outcome is of a kind. */
  function Indices(outs: seq<Outcome>, kind: Kind, offset: int): seq<int>
  {
    Positions(Flags(outs, kind), offset)
  }

  lemma FlagsSnoc(outs: seq<Outcome>, out: Outcome, kind: Kind)
    ensures Flags(outs + [out], kind) == Flags(outs, kind) + [Has(out, kind)]
  {
    var a := Flags(outs + [out], kind);
    var b := Flags(outs, kind) + [Has(out, kind)];
    forall i | 0 <= i < |a|
      ensures a[i] == b[i]
    {
      if i < |outs| {
        assert (outs + [out])[i] == outs[i];
      }
    }
  }

  /** Each exercise the loop finishes extends the lists. */
  lemma IndicesSnoc(outs: seq<Outcome>, out: Outcome, kind: Kind, offset: int)
    ensures Indices(outs + [out], kind, offset) == Indices(outs, kind, offset) + (if Has(out, kind) then [|outs| + offset] else [])
  {
    FlagsSnoc(outs, out, kind);
    PositionsSnoc(Flags(outs, kind), Has(out, kind), offset);
  }

  /** Notice n when c holds. */
  function When(c: bool, n: Notice): seq<Notice>
  {
    if c then [n] else []
  }

  /** The mails after the loop, from the lists main kept: the results
      (when some exercise was compared), the passed list, the blocked
      list, the congratulations when every exercise is passed, and in the
      current package the erroneous list and the notice that nothing was
      corrected. */
  function Mails(g: Generation, graded: seq<int>, passed: seq<int>, blocked: seq<int>, erroneous: seq<int>, exercises: nat): seq<Notice>
  {
    When(|graded| > 0, Results(graded))
    + When(|passed| > 0, PassedList(passed))
    + When(|blocked| > 0, BlockedList(blocked))
    + When(|passed| == exercises, Congrats)
    + When(g.Current? && |erroneous| > 0, Erroneous(erroneous))
    + When(g.Current? && |passed| + |blocked| + |erroneous| + |graded| == 0, NothingCorrected)
  }

  /** The mails for the outcomes of a whole file; the erroneous list
      holds 1-based exercise numbers. */
  function Notices(g: Generation, outs: seq<Outcome>, exercises: nat): seq<Notice>
  {
    Mails(g, Indices(outs, Grade, 0), Indices(outs, Pass, 0), Indices(outs, Block, 0), Indices(outs, Tamper, 1), exercises)
  }

  // ------------------------------------------------------ the methods

  function Snapshot(store: AttemptStore): Files
    reads store
  {
    Files(store.blocks, store.scores, store.matNums)
  }

  /** Compares the sub-tasks of one exercise in order, filling the
      correct-vector in place and collecting the variable names; a
      comparison that raises ends the loop. */
  method CompareAll(g: Generation, sol: seq<Cell>, exp: seq<KeyEntry>) returns (correct: seq<bool>, names: seq<Cell>, crashed: bool)
    requires |sol| == |exp|
    ensures crashed <==> Matches(g, sol, exp).None?
    ensures !crashed ==> Matches(g, sol, exp) == Some(correct) && names == Names(exp)
  {
    var solved := new bool[|sol|];
    correct, names := [], [];
    crashed := false;
    var k := 0;
    while k < |sol|
      invariant 0 <= k <= |sol| && |names| == k
      invariant forall j :: 0 <= j < k ==> Verdict(g, sol[j], exp[j]).Some? && solved[j] == Verdict(g, sol[j], exp[j]).value
      invariant forall j :: 0 <= j < k ==> names[j] == exp[j].name
    {
      var v := Verdict(g, sol[k], exp[k]);
      if v.None? {
        crashed := true;
        return;
      }
      solved[k] := v.value;
      names := names + [exp[k].name];
      k := k + 1;
    }
    correct := solved[..];
    assert correct == Matches(g, sol, exp).value;
  }

  /** The loop body of main for exercise idx. */
  method CorrectExercise(g: Generation, store: AttemptStore, student: string, idx: nat, sol: seq<Cell>,
                         exp: seq<KeyEntry>, maxAttempts: nat, matNum: int) returns (out: Outcome)
    requires store.Valid() && maxAttempts >= 1
    modifies store
    ensures store.Valid()
    ensures out == Judge(g, Lookup(old(store.blocks), Key(student, idx)), sol, exp, maxAttempts)
    ensures Snapshot(store) == Apply(old(Snapshot(store)), Key(student, idx), out, maxAttempts, matNum)
  {
    var k := Key(student, idx);
    ghost var o := Lookup(store.blocks, k);
    ghost var f := Snapshot(store);
    if Empty in sol {
      return Incomplete;
    }
    var blocked, passed := store.GetStats(k, maxAttempts);
    assert Snapshot(store) == AfterStats(f, k, maxAttempts);
    if blocked {
      return WasBlocked;
    }
    if passed {
      return WasPassed;
    }
    if |sol| != |exp| {
      return Tampered;
    }
    out := GradeExercise(g, store, k, sol, exp, maxAttempts, matNum, o);
  }

  /** Compares the sub-tasks and, when there is at least one, records
      the percentage with update_stats. */
  method GradeExercise(g: Generation, store: AttemptStore, k: Key, sol: seq<Cell>, exp: seq<KeyEntry>,
                       maxAttempts: nat, matNum: int, ghost o: Option<Record>) returns (out: Outcome)
    requires store.Valid() && maxAttempts >= 1 && |sol| == |exp|
    requires Lookup(store.blocks, k) == Seen(o, maxAttempts)
    modifies store
    ensures store.Valid()
    ensures out == Assess(g, o, sol, exp, maxAttempts)
    ensures out.Graded? && out.recorded.Some? ==>
              Snapshot(store) == AfterUpdate(old(Snapshot(store)), k, out.recorded.value.percentage, maxAttempts, matNum)
    ensures !(out.Graded? && out.recorded.Some?) ==> Snapshot(store) == old(Snapshot(store))
  {
    var correct, names, crashed := CompareAll(g, sol, exp);
    if crashed {
      return Crashed;
    }
    if |correct| == 0 {
      if g.Src? {
        return Crashed;
      }
      return Graded(correct, names, None);
    }
    var p := Percent(correct);
    ghost var before := store.blocks;
    ghost var base := Base(o, maxAttempts);
    assert base == if k in before then before[k] else Zeros(maxAttempts);
    var b, ps := store.UpdateStats(k, p, maxAttempts, matNum);
    out := Graded(correct, names, Some(Recorded(p, b, ps)));
    if FirstZero(base).None? {
      assert k in before && before[k] == base;
      assert before[k := Write(base, p)] == before;
    }
  }

  /** The correction of one submitted file. A file without exercises, or
      with a different exercise count from the key, only gets the
      malformed notice. Otherwise the exercises are corrected in order;
      an exception ends the loop with what was stored so far and no
      notice; else the notices follow the passed, blocked and erroneous
      lists. */
  method CorrectSubmission(g: Generation, store: AttemptStore, sub: Submission, key: seq<seq<KeyEntry>>, maxAttempts: nat)
    returns (notices: seq<Notice>, crashed: bool)
    requires store.Valid() && maxAttempts >= 1
    modifies store
    ensures store.Valid()
    ensures (|sub.solutions| == 0 || |sub.solutions| != |key|) ==>
              Snapshot(store) == old(Snapshot(store)) && notices == [Malformed] && !crashed
    ensures (0 < |sub.solutions| == |key|) ==>
              var outs := Run(Corrects(g, maxAttempts, sub.matNum), old(Snapshot(store)), sub, key, |key|).1;
              var stop := CrashPoint(outs);
              && Snapshot(store) == Run(Corrects(g, maxAttempts, sub.matNum), old(Snapshot(store)), sub, key, stop).0
              && (crashed <==> Crashed in outs)
              && notices == (if crashed then [] else Notices(g, outs, |key|))
  {
    if |sub.solutions| == 0 || |sub.solutions| != |key| {
      return [Malformed], false;
    }
    var graded, passed, blocked, erroneous;
    ghost var f0 := Snapshot(store);
    ghost var step := Corrects(g, maxAttempts, sub.matNum);
    graded, passed, blocked, erroneous, crashed :=
      CorrectExercises(g, store, sub, key, maxAttempts, step, f0, Run(step, f0, sub, key, |key|).1);
    notices := if crashed then [] else Mails(g, graded, passed, blocked, erroneous, |key|);
  }

  /** The exercise loop of main, in order, up to the first exception;
      f0 is the store before the loop and all the outcomes of every
      exercise. */
  method CorrectExercises(g: Generation, store: AttemptStore, sub: Submission, key: seq<seq<KeyEntry>>, maxAttempts: nat,
                          ghost step: ExerciseFn, ghost f0: Files, ghost all: seq<Outcome>)
    returns (graded: seq<int>, passed: seq<int>, blocked: seq<int>, erroneous: seq<int>, crashed: bool)
    requires store.Valid() && maxAttempts >= 1 && |sub.solutions| == |key|
    requires IsCorrects(step, g, maxAttempts, sub.matNum)
    requires f0 == Snapshot(store) && all == Run(step, f0, sub, key, |key|).1
    modifies store
    ensures store.Valid()
    ensures Snapshot(store) == Run(step, f0, sub, key, CrashPoint(all)).0
    ensures crashed <==> Crashed in all
    ensures !crashed ==> graded == Indices(all, Grade, 0) && passed == Indices(all, Pass, 0)
    ensures !crashed ==> blocked == Indices(all, Block, 0) && erroneous == Indices(all, Tamper, 1)
  {
    crashed := false;
    ghost var outs: seq<Outcome> := [];
    graded, passed, blocked, erroneous := [], [], [], [];
    var idx := 0;
    while idx < |key|
      invariant 0 <= idx <= |key| && store.Valid()
      invariant Snapshot(store) == Run(step, f0, sub, key, idx).0
      invariant outs == Run(step, f0, sub, key, idx).1
      invariant Crashed !in outs
      invariant graded == Indices(outs, Grade, 0) && passed == Indices(outs, Pass, 0)
      invariant blocked == Indices(outs, Block, 0) && erroneous == Indices(outs, Tamper, 1)
    {
      var out;
      out, graded, passed, blocked, erroneous := Step(g, store, sub, key, maxAttempts, idx, step, f0, all, outs, graded, passed, blocked, erroneous);
      if out.Crashed? {
        return graded, passed, blocked, erroneous, true;
      }
      outs := outs + [out];
      idx := idx + 1;
    }
    assert outs == all;
  }

  /** One turn of the exercise loop: the exercise, then the lists. */
  method Step(g: Generation, store: AttemptStore, sub: Submission, key: seq<seq<KeyEntry>>, maxAttempts: nat, idx: nat,
              ghost step: ExerciseFn, ghost f0: Files, ghost all: seq<Outcome>, ghost outs: seq<Outcome>, graded: seq<int>, passed: seq<int>, blocked: seq<int>, erroneous: seq<int>)
    returns (out: Outcome, graded': seq<int>, passed': seq<int>, blocked': seq<int>, erroneous': seq<int>)
    requires store.Valid() && maxAttempts >= 1 && idx < |sub.solutions| == |key|
    requires IsCorrects(step, g, maxAttempts, sub.matNum)
    requires Snapshot(store) == Run(step, f0, sub, key, idx).0
    requires outs == Run(step, f0, sub, key, idx).1 && Crashed !in outs
    requires all == Run(step, f0, sub, key, |key|).1
    requires graded == Indices(outs, Grade, 0) && passed == Indices(outs, Pass, 0)
    requires blocked == Indices(outs, Block, 0) && erroneous == Indices(outs, Tamper, 1)
    modifies store
    ensures store.Valid()
    ensures Snapshot(store) == Run(step, f0, sub, key, idx + 1).0
    ensures Run(step, f0, sub, key, idx + 1).1 == outs + [out]
    ensures out.Crashed? ==> Crashed in all && Snapshot(store) == Run(step, f0, sub, key, CrashPoint(all)).0
    ensures !out.Crashed? ==> Crashed !in outs + [out]
    ensures graded' == Indices(outs + [out], Grade, 0) && passed' == Indices(outs + [out], Pass, 0)
    ensures blocked' == Indices(outs + [out], Block, 0) && erroneous' == Indices(outs + [out], Tamper, 1)
  {
    ghost var before := Snapshot(store);
    out := CorrectExercise(g, store, sub.student, idx, sub.solutions[idx], key[idx], maxAttempts, sub.matNum);
    assert (Snapshot(store), out) == Exercise(g, maxAttempts, sub.matNum, before, Key(sub.student, idx), sub.solutions[idx], key[idx]);
    graded', passed', blocked', erroneous' := Tally(outs, idx, out, graded, passed, blocked, erroneous);
    RunPrefix(step, f0, sub, key, idx + 1, |key|);
    if out.Crashed? {
      CrashPointAt(all, outs, out);
      assert CrashPoint(all) == idx + 1;
    } else {
      NoCrashYet(outs, out);
    }
  }

  /** Puts the exercise just finished, the idx-th, on the lists its
      outcome belongs to; the erroneous list takes its 1-based number. */
  method Tally(ghost outs: seq<Outcome>, idx: nat, out: Outcome, graded: seq<int>, passed: seq<int>, blocked: seq<int>, erroneous: seq<int>)
    returns (graded': seq<int>, passed': seq<int>, blocked': seq<int>, erroneous': seq<int>)
    requires idx == |outs|
    requires graded == Indices(outs, Grade, 0) && passed == Indices(outs, Pass, 0)
    requires blocked == Indices(outs, Block, 0) && erroneous == Indices(outs, Tamper, 1)
    ensures graded' == Indices(outs + [out], Grade, 0) && passed' == Indices(outs + [out], Pass, 0)
    ensures blocked' == Indices(outs + [out], Block, 0) && erroneous' == Indices(outs + [out], Tamper, 1)
  {
    IndicesSnoc(outs, out, Grade, 0);
    IndicesSnoc(outs, out, Pass, 0);
    IndicesSnoc(outs, out, Block, 0);
    IndicesSnoc(outs, out, Tamper, 1);
    graded', passed', blocked', erroneous' := graded, passed, blocked, erroneous;
    if out.Graded? {
      graded' := graded' + [idx];
    }
    if Has(out, Pass) {
      passed' := passed' + [idx];
    }
    if Has(out, Block) {
      blocked' := blocked' + [idx];
    }
    if out.Tampered? {
      erroneous' := erroneous' + [idx + 1];
    }
  }

  /** A crash right after a prefix without one ends the prefix
      CrashPoint measures. */
  lemma CrashPointAt(all: seq<Outcome>, outs: seq<Outcome>, out: Outcome)
    requires |outs| < |all| && all[..|outs| + 1] == outs + [out]
    requires out.Crashed? && Crashed !in outs
    ensures CrashPoint(all) == |outs| + 1 && Crashed in all
  {
    var idx := |outs|;
    assert all[..idx] == outs;
    assert all[idx] == out && all[idx] in all;
  }

  lemma NoCrashYet(outs: seq<Outcome>, out: Outcome)
    requires Crashed !in outs && !out.Crashed?
    ensures Crashed !in outs + [out]
  {
  }

  // ------------------------------------------------------ properties

  /** The run of n exercises extends the run of m. */
  lemma {:induction false} RunPrefix(step: ExerciseFn, f0: Files, sub: Submission, key: seq<seq<KeyEntry>>, m: nat, n: nat)
    requires m <= n <= |sub.solutions| == |key|
    ensures Run(step, f0, sub, key, n).1[..m] == Run(step, f0, sub, key, m).1
    decreases n
  {
    if m < n {
      RunPrefix(step, f0, sub, key, m, n - 1);
      var outs := Run(step, f0, sub, key, n - 1).1;
      assert Run(step, f0, sub, key, n).1[..m] == outs[..m];
    }
  }

  /** The store's other records (another student's, or an exercise the
      run has not reached) are untouched. */
  lemma {:induction false} RunLeavesOthers(g: Generation, f0: Files, sub: Submission, key: seq<seq<KeyEntry>>, maxAttempts: nat, n: nat, k: Key)
    requires n <= |sub.solutions| == |key|
    requires k.student != sub.student || k.exercise >= n
    ensures Lookup(Run(Corrects(g, maxAttempts, sub.matNum), f0, sub, key, n).0.blocks, k) == Lookup(f0.blocks, k)
  {
    if n > 0 {
      RunLeavesOthers(g, f0, sub, key, maxAttempts, n - 1, k);
      LastStep(g, f0, sub, key, maxAttempts, n, k);
    }
  }

  /** Every exercise is judged on its own record as it was before the
      submission, and ends with that record's Effect: the exercises of a
      file do not influence each other. */
  lemma {:induction false} RunIsPerExercise(g: Generation, f0: Files, sub: Submission, key: seq<seq<KeyEntry>>, maxAttempts: nat, n: nat, i: nat)
    requires i < n <= |sub.solutions| == |key|
    ensures var k := Key(sub.student, i);
            var r := Run(Corrects(g, maxAttempts, sub.matNum), f0, sub, key, n);
            && r.1[i] == Judge(g, Lookup(f0.blocks, k), sub.solutions[i], key[i], maxAttempts)
            && Lookup(r.0.blocks, k) == Effect(Lookup(f0.blocks, k), r.1[i], maxAttempts)
  {
    var k := Key(sub.student, i);
    LastStep(g, f0, sub, key, maxAttempts, n, k);
    if i == n - 1 {
      RunLeavesOthers(g, f0, sub, key, maxAttempts, n - 1, k);
    } else {
      RunIsPerExercise(g, f0, sub, key, maxAttempts, n - 1, i);
    }
  }

  /** The last step of a run changes the last exercise's record as
      Effect says and no other record. */
  lemma LastStep(g: Generation, f0: Files, sub: Submission, key: seq<seq<KeyEntry>>, maxAttempts: nat, n: nat, k: Key)
    requires 0 < n <= |sub.solutions| == |key|
    ensures var prev := Run(Corrects(g, maxAttempts, sub.matNum), f0, sub, key, n - 1);
            var r := Run(Corrects(g, maxAttempts, sub.matNum), f0, sub, key, n);
            var kn := Key(sub.student, n - 1);
            && r.1 == prev.1 + [r.1[n - 1]]
            && r.1[n - 1] == Judge(g, Lookup(prev.0.blocks, kn), sub.solutions[n - 1], key[n - 1], maxAttempts)
            && Lookup(r.0.blocks, k) == if k == kn then Effect(Lookup(prev.0.blocks, kn), r.1[n - 1], maxAttempts) else Lookup(prev.0.blocks, k)
  {
    var prev := Run(Corrects(g, maxAttempts, sub.matNum), f0, sub, key, n - 1);
    var kn := Key(sub.student, n - 1);
    var out := Judge(g, Lookup(prev.0.blocks, kn), sub.solutions[n - 1], key[n - 1], maxAttempts);
    ApplyEffect(prev.0, kn, out, maxAttempts, sub.matNum, k);
  }

  /** The current package's comparison never raises. */
  lemma CurrentNeverCrashes(o: Option<Record>, sol: seq<Cell>, exp: seq<KeyEntry>, maxAttempts: nat)
    ensures !Judge(Current, o, sol, exp, maxAttempts).Crashed?
  {
    if !(Empty in sol) && |sol| == |exp| {
      assert Matches(Current, sol, exp).Some?;
    }
  }

  /** A graded exercise records 100 exactly when every sub-task matched,
      and then is reported passed; the percentage is in [0, 100]. */
  lemma GradedPassedIffAllCorrect(g: Generation, o: Option<Record>, sol: seq<Cell>, exp: seq<KeyEntry>, maxAttempts: nat)
    requires Judge(g, o, sol, exp, maxAttempts).Graded?
    ensures var out := Judge(g, o, sol, exp, maxAttempts);
            out.recorded.Some? <==> |out.correct| > 0
    ensures var out := Judge(g, o, sol, exp, maxAttempts);
            out.recorded.Some? ==>
              && 0 <= out.recorded.value.percentage <= 100
              && (out.recorded.value.passed <==> forall k :: 0 <= k < |out.correct| ==> out.correct[k])
  {
  }

  /** With every stored slot a percentage, a graded exercise is never
      reported blocked and passed at once: get_stats found it neither, so
      a free slot remains. */
  lemma GradedNeverBoth(g: Generation, o: Option<Record>, sol: seq<Cell>, exp: seq<KeyEntry>, maxAttempts: nat)
    requires maxAttempts >= 1
    requires o.Some? ==> SlotsInRange(o.value)
    requires Judge(g, o, sol, exp, maxAttempts).Graded?
    ensures var out := Judge(g, o, sol, exp, maxAttempts);
            out.recorded.Some? ==> !(out.recorded.value.blocked && out.recorded.value.passed)
  {
    var out := Judge(g, o, sol, exp, maxAttempts);
    var base := Base(o, maxAttempts);
    if out.recorded.Some? {
      assert Prior(o, maxAttempts) == (false, false);
      if o.None? {
        assert base[maxAttempts - 1] == 0;
        assert 100 !in base;
      }
      CleanUpdateNeverBoth(base, out.recorded.value.percentage);
    }
  }

  /** A score of 0 uses no slot: the record is the one get_stats
      resized, or a fresh record of unused slots when there was none,
      since 0 marks an unused slot. The logs still grow (see
      OnlyGradingIsLogged). */
  lemma ZeroScoreUsesNoSlot(g: Generation, o: Option<Record>, sol: seq<Cell>, exp: seq<KeyEntry>, maxAttempts: nat)
    requires Judge(g, o, sol, exp, maxAttempts).Graded?
    requires Judge(g, o, sol, exp, maxAttempts).recorded.Some?
    requires Judge(g, o, sol, exp, maxAttempts).recorded.value.percentage == 0
    ensures Effect(o, Judge(g, o, sol, exp, maxAttempts), maxAttempts) == Some(Base(o, maxAttempts))
  {
    WriteZeroIsNoOp(Base(o, maxAttempts));
  }

  /** An exercise with an empty sub-task changes nothing. */
  lemma IncompleteIsSilent(g: Generation, o: Option<Record>, sol: seq<Cell>, exp: seq<KeyEntry>, maxAttempts: nat)
    requires Empty in sol
    ensures Judge(g, o, sol, exp, maxAttempts) == Incomplete
    ensures Effect(o, Incomplete, maxAttempts) == o
  {
  }

  /** Only a graded exercise with sub-tasks adds to the score log. */
  lemma OnlyGradingIsLogged(f: Files, k: Key, out: Outcome, maxAttempts: nat, matNum: int)
    requires !(out.Graded? && out.recorded.Some?)
    ensures Apply(f, k, out, maxAttempts, matNum).scores == f.scores
    ensures Apply(f, k, out, maxAttempts, matNum).matNums == f.matNums
  {
  }

  /** The congratulations are sent exactly when every exercise of the
      file is, or just became, passed. */
  lemma CongratsIffAllPassed(g: Generation, outs: seq<Outcome>)
    ensures Congrats in Notices(g, outs, |outs|) <==> forall i :: 0 <= i < |outs| ==> Has(outs[i], Pass)
  {
    var graded, passed := Indices(outs, Grade, 0), Indices(outs, Pass, 0);
    var blocked, erroneous := Indices(outs, Block, 0), Indices(outs, Tamper, 1);
    MailsCongrats(g, graded, passed, blocked, erroneous, |outs|);
    PositionsAll(Flags(outs, Pass), 0);
  }

  /** In the current package the nothing-corrected notice is sent exactly
      when every exercise was skipped for an empty sub-task. */
  lemma NothingCorrectedIffAllIncomplete(outs: seq<Outcome>, exercises: nat)
    requires forall i :: 0 <= i < |outs| ==> !outs[i].Crashed?
    ensures NothingCorrected in Notices(Current, outs, exercises) <==> forall i :: 0 <= i < |outs| ==> outs[i].Incomplete?
  {
    var graded, passed := Indices(outs, Grade, 0), Indices(outs, Pass, 0);
    var blocked, erroneous := Indices(outs, Block, 0), Indices(outs, Tamper, 1);
    MailsNothing(Current, graded, passed, blocked, erroneous, exercises);
    if forall i :: 0 <= i < |outs| ==> outs[i].Incomplete? {
      Unlisted(outs, Grade, 0);
      Unlisted(outs, Pass, 0);
      Unlisted(outs, Block, 0);
      Unlisted(outs, Tamper, 1);
    } else {
      var i :| 0 <= i < |outs| && !outs[i].Incomplete?;
      if outs[i].WasBlocked? {
        Listed(outs, Block, 0, i);
      } else if outs[i].WasPassed? {
        Listed(outs, Pass, 0, i);
      } else if outs[i].Tampered? {
        Listed(outs, Tamper, 1, i);
      } else {
        Listed(outs, Grade, 0, i);
      }
    }
  }

  /** An outcome of a kind puts its exercise on that kind's list. */
  lemma Listed(outs: seq<Outcome>, kind: Kind, offset: int, i: nat)
    requires i < |outs| && Has(outs[i], kind)
    ensures |Indices(outs, kind, offset)| > 0
  {
    assert Flags(outs, kind)[i];
  }

  /** Skipped exercises are on no list. */
  lemma Unlisted(outs: seq<Outcome>, kind: Kind, offset: int)
    requires forall i :: 0 <= i < |outs| ==> outs[i].Incomplete?
    ensures Indices(outs, kind, offset) == []
  {
    var b := Flags(outs, kind);
    forall i | 0 <= i < |b|
      ensures !b[i]
    {
      assert outs[i].Incomplete?;
    }
    PositionsNone(b, offset);
  }

  lemma MailsCongrats(g: Generation, graded: seq<int>, passed: seq<int>, blocked: seq<int>, erroneous: seq<int>, exercises: nat)
    ensures Congrats in Mails(g, graded, passed, blocked, erroneous, exercises) <==> |passed| == exercises
  {
  }

  lemma MailsNothing(g: Generation, graded: seq<int>, passed: seq<int>, blocked: seq<int>, erroneous: seq<int>, exercises: nat)
    ensures NothingCorrected in Mails(g, graded, passed, blocked, erroneous, exercises)
            <==> g.Current? && |passed| + |blocked| + |erroneous| + |graded| == 0
  {
  }
}
