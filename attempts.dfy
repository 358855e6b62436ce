/** Attempt records of the current package, as values. A record holds one
    slot per allowed attempt with the percentage scored there; 0 marks an
    unused slot, and a score of 0 therefore leaves no trace. These
    functions specify what the store class does to the arrays it owns. */
module Attempts {
  import opened Wrappers

  type Record = seq<int>

  /** Every slot holds a percentage. */
  predicate SlotsInRange(s: Record)
  {
    forall i :: 0 <= i < |s| ==> 0 <= s[i] <= 100
  }

  /** The first unused slot, if any. */
  function FirstZero(s: Record): (r: Option<nat>)
    ensures r.Some? ==> r.value < |s| && s[r.value] == 0
    ensures r.Some? ==> forall j :: 0 <= j < r.value ==> s[j] != 0
    ensures r.None? ==> forall j :: 0 <= j < |s| ==> s[j] != 0
  {
    if |s| == 0 then None
    else if s[0] == 0 then Some(0)
    else match FirstZero(s[1..])
      case None => None
      case Some(k) => Some(k + 1)
  }

  /** max_attempts fresh slots. */
  function Zeros(n: nat): (r: Record)
    ensures |r| == n
    ensures forall i :: 0 <= i < n ==> r[i] == 0
  {
    seq(n, _ => 0)
  }

  /** The record cut or zero-padded at the end to n slots. */
  function Resize(s: Record, n: nat): (r: Record)
    ensures |r| == n
    ensures forall i :: 0 <= i < n && i < |s| ==> r[i] == s[i]
    ensures forall i :: |s| <= i < n ==> r[i] == 0
  {
    if |s| > n then s[..n] else if |s| < n then s + Zeros(n - |s|) else s
  }

  /** Blocked: the last slot holds a score strictly between 0 and 100. */
  predicate Blocked(s: Record)
  {
    |s| > 0 && 0 < s[|s| - 1] < 100
  }

  /** Passed: some slot holds 100. */
  predicate Passed(s: Record)
  {
    100 in s
  }

  /** (blocked, passed) as get_stats reports them: blocked is checked
      first and excludes passed. */
  function Stats(s: Record): (bool, bool)
  {
    if Blocked(s) then (true, false) else if Passed(s) then (false, true) else (false, false)
  }

  /** The record after a score is written into the first unused slot; a
      full record is left as it is. */
  function Write(s: Record, score: int): Record
  {
    match FirstZero(s)
    case None => s
    case Some(k) => s[k := score]
  }

  /** (blocked, passed) as update_stats reports them. */
  function UpdateFlags(s: Record, score: int): (bool, bool)
  {
    (FirstZero(s).None? || Blocked(Write(s, score)), score == 100)
  }

  /** The number of used slots. */
  function Used(s: Record): (n: nat)
    ensures n <= |s|
  {
    if s == [] then 0 else (if s[0] != 0 then 1 else 0) + Used(s[1..])
  }

  // ------------------------------------------------------------ properties

  /** A resize keeps the common prefix and pads with unused slots; doing
      it twice changes nothing more. */
  lemma ResizeIdempotent(s: Record, n: nat)
    ensures Resize(Resize(s, n), n) == Resize(s, n)
  {
  }

  /** A resize to a length at least the old one keeps every score. */
  lemma ResizeGrowKeepsPassed(s: Record, n: nat)
    requires |s| <= n && Passed(s)
    ensures Passed(Resize(s, n))
  {
    var i :| 0 <= i < |s| && s[i] == 100;
    assert Resize(s, n)[i] == 100;
  }

  /** get_stats never reports both blocked and passed. */
  lemma StatsNeverBoth(s: Record)
    ensures !(Stats(s).0 && Stats(s).1)
  {
  }

  /** A write changes exactly the first unused slot and nothing else. */
  lemma WriteChangesFirstFreeSlot(s: Record, score: int)
    requires FirstZero(s).Some?
    ensures var k := FirstZero(s).value;
            |Write(s, score)| == |s| && Write(s, score)[k] == score
            && (forall j :: 0 <= j < |s| && j != k ==> Write(s, score)[j] == s[j])
            && (forall j :: 0 <= j < k ==> s[j] != 0)
  {
  }

  /** Writing a score of 0 leaves the record unchanged. */
  lemma WriteZeroIsNoOp(s: Record)
    ensures Write(s, 0) == s
  {
    if FirstZero(s).Some? {
      var k := FirstZero(s).value;
      assert s[k := 0] == s;
    }
  }

  /** A passed record stays passed: a write only fills an unused slot. */
  lemma WriteKeepsPassed(s: Record, score: int)
    requires Passed(s)
    ensures Passed(Write(s, score))
  {
    var i :| 0 <= i < |s| && s[i] == 100;
    assert Write(s, score)[i] == 100;
  }

  /** A record with slots in range that is neither blocked nor passed has
      an unused last slot, so the next score finds a free slot. */
  lemma CleanRecordHasFreeSlot(s: Record)
    requires |s| > 0 && SlotsInRange(s) && Stats(s) == (false, false)
    ensures s[|s| - 1] == 0
    ensures FirstZero(s).Some?
  {
    assert s[|s| - 1] != 100;
  }

  /** After get_stats reported neither blocked nor passed, recording a
      percentage never yields blocked and passed together. */
  lemma CleanUpdateNeverBoth(s: Record, score: int)
    requires |s| > 0 && SlotsInRange(s) && Stats(s) == (false, false)
    requires 0 <= score <= 100
    ensures !(UpdateFlags(s, score).0 && UpdateFlags(s, score).1)
  {
    CleanRecordHasFreeSlot(s);
    var k := FirstZero(s).value;
    var w := Write(s, score);
    if k == |s| - 1 {
      assert w[|s| - 1] == score;
    } else {
      assert w[|s| - 1] == 0;
    }
  }

  /** A full record with scores in range is decided: get_stats reports
      it blocked or passed. */
  lemma FullRecordIsDecided(s: Record)
    requires |s| > 0 && SlotsInRange(s) && FirstZero(s).None?
    ensures Stats(s) != (false, false)
  {
    assert s[|s| - 1] != 0;
    if s[|s| - 1] == 100 {
      assert Passed(s);
    }
  }

  /** A record is full exactly when every slot is used. */
  lemma {:induction false} FullIffAllUsed(s: Record)
    ensures FirstZero(s).None? <==> Used(s) == |s|
  {
    if s != [] {
      FullIffAllUsed(s[1..]);
    }
  }

  /** Each nonzero score that finds a free slot uses up exactly one more
      slot: a record of n slots takes at most n nonzero scores. */
  lemma {:induction false} WriteUsesOneSlot(s: Record, score: int)
    requires FirstZero(s).Some? && score != 0
    ensures Used(Write(s, score)) == Used(s) + 1
  {
    if s[0] != 0 {
      var k := FirstZero(s[1..]).value;
      WriteUsesOneSlot(s[1..], score);
      assert Write(s, score)[1..] == Write(s[1..], score);
    } else {
      assert Write(s, score)[1..] == s[1..];
    }
  }
}
