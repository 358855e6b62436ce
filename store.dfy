/** The attempt files of the current package, per student folder: the
    block record Exercise<n>_block.txt, the score log data/Exercise<n>.txt
    and data/mat_num.txt. get_stats and update_stats load a record into a
    fresh array (np.loadtxt), change it in place and save it back
    (np.savetxt). */
module Store {
  import opened Wrappers
  import opened Attempts

  /** A student (by e-mail address) and a 0-based exercise index. */
  datatype Key = Key(student: string, exercise: nat)

  class AttemptStore {
    /** The block records. */
    var blocks: map<Key, Record>
    /** Every percentage recorded, in order (time stamps left out). */
    var scores: map<Key, seq<int>>
    /** Every matriculation number a student submitted with, in order. */
    var matNums: map<string, seq<int>>

    /** Every block record the program writes has at least one slot. */
    predicate Valid()
      reads this
    {
      forall k :: k in blocks ==> |blocks[k]| > 0
    }

    constructor ()
      ensures Valid()
      ensures blocks == map[] && scores == map[] && matNums == map[]
    {
      blocks := map[];
      scores := map[];
      matNums := map[];
    }

    /** get_stats: a missing record reports (False, False). A stored
        record is first cut or padded to maxAttempts slots and the result
        kept, then reported blocked when its last slot is in (0, 100), or
        else passed when a slot holds 100. */
    method GetStats(key: Key, maxAttempts: nat) returns (blocked: bool, passed: bool)
      requires Valid() && maxAttempts >= 1
      modifies this
      ensures Valid() && scores == old(scores) && matNums == old(matNums)
      ensures key !in old(blocks) ==> blocks == old(blocks) && !blocked && !passed
      ensures key in old(blocks) ==>
                var s := Resize(old(blocks)[key], maxAttempts);
                blocks == old(blocks)[key := s] && (blocked, passed) == Stats(s)
    {
      if key !in blocks {
        return false, false;
      }
      var rec := blocks[key];
      if |rec| > maxAttempts {
        rec := rec[..maxAttempts];
        blocks := blocks[key := rec];
      } else if |rec| < maxAttempts {
        rec := rec + Zeros(maxAttempts - |rec|);
        blocks := blocks[key := rec];
      }
      assert rec == Resize(old(blocks)[key], maxAttempts);
      if 0 < rec[|rec| - 1] < 100 {
        blocked, passed := true, false;
      } else if 100 in rec {
        blocked, passed := false, true;
      } else {
        blocked, passed := false, false;
      }
    }

    /** update_stats: a missing record starts as maxAttempts unused slots.
        The percentage goes into the first unused slot, in place, and the
        record is saved; without an unused slot nothing is written and the
        result is blocked. Blocked also when the last slot is in (0, 100)
        afterwards; passed exactly when the percentage is 100. The
        percentage is appended to the score log and the matriculation
        number to the student's log in every case. */
    method UpdateStats(key: Key, percentage: int, maxAttempts: nat, matNum: int) returns (blocked: bool, passed: bool)
      requires Valid() && maxAttempts >= 1
      modifies this
      ensures Valid()
      ensures var s := if key in old(blocks) then old(blocks)[key] else Zeros(maxAttempts);
              && (FirstZero(s).Some? ==> blocks == old(blocks)[key := Write(s, percentage)])
              && (FirstZero(s).None? ==> blocks == old(blocks))
              && (blocked, passed) == UpdateFlags(s, percentage)
      ensures scores == old(scores)[key := (if key in old(scores) then old(scores)[key] else []) + [percentage]]
      ensures matNums == old(matNums)[key.student := (if key.student in old(matNums) then old(matNums)[key.student] else []) + [matNum]]
    {
      passed := percentage == 100;
      blocked := WriteBlock(key, percentage, maxAttempts);
      var log := if key in scores then scores[key] else [];
      scores := scores[key := log + [percentage]];
      var used := if key.student in matNums then matNums[key.student] else [];
      matNums := matNums[key.student := used + [matNum]];
    }

    /** The block-record part of update_stats. */
    method WriteBlock(key: Key, percentage: int, maxAttempts: nat) returns (blocked: bool)
      requires Valid() && maxAttempts >= 1
      modifies this
      ensures Valid() && scores == old(scores) && matNums == old(matNums)
      ensures var s := if key in old(blocks) then old(blocks)[key] else Zeros(maxAttempts);
              && (FirstZero(s).Some? ==> blocks == old(blocks)[key := Write(s, percentage)])
              && (FirstZero(s).None? ==> blocks == old(blocks))
              && blocked == UpdateFlags(s, percentage).0
    {
      blocked := false;
      var s := if key in blocks then blocks[key] else Zeros(maxAttempts);
      var rec := new int[|s|](i requires 0 <= i < |s| => s[i]);
      assert forall j :: 0 <= j < |s| ==> rec[j] == s[j];
      var k := FindUnused(rec);
      if k < rec.Length {
        FirstZeroIsFirst(s, k);
        rec[k] := percentage;
        assert rec[..] == Write(s, percentage);
        blocks := blocks[key := rec[..]];
      } else {
        forall j | 0 <= j < |s|
          ensures s[j] != 0
        {
          assert rec[j] != 0;
        }
        NoZeroIsFull(s);
        assert rec[..] == s;
        blocked := true;
      }
      if 0 < rec[rec.Length - 1] < 100 {
        blocked := true;
      }
    }
  }

  /** The first unused (zero) slot of a record, or its length when every
      slot is used. */
  method FindUnused(rec: array<int>) returns (k: nat)
    ensures k <= rec.Length
    ensures forall j :: 0 <= j < k ==> rec[j] != 0
    ensures k < rec.Length ==> rec[k] == 0
  {
    k := 0;
    while k < rec.Length && rec[k] != 0
      invariant k <= rec.Length
      invariant forall j :: 0 <= j < k ==> rec[j] != 0
    {
      k := k + 1;
    }
  }

  /** A record with every slot used has no first unused slot. */
  lemma {:induction false} NoZeroIsFull(s: Record)
    requires forall j :: 0 <= j < |s| ==> s[j] != 0
    ensures FirstZero(s).None?
  {
    if s != [] {
      NoZeroIsFull(s[1..]);
    }
  }

  /** An unused slot with only used slots before it is the first one. */
  lemma {:induction false} FirstZeroIsFirst(s: Record, k: nat)
    requires k < |s| && s[k] == 0
    requires forall j :: 0 <= j < k ==> s[j] != 0
    ensures FirstZero(s) == Some(k)
  {
    if k > 0 {
      FirstZeroIsFirst(s[1..], k - 1);
    }
  }
}
