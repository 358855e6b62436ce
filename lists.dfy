/** Index lists: the positions of a boolean sequence where it holds, as
    the correction loops collect the numbers of passed, blocked or
    erroneous exercises. */
module Lists {
  /** The positions (plus offset) where b holds, in ascending order. */
  function Positions(b: seq<bool>, offset: int): (r: seq<int>)
    ensures |r| <= |b|
    ensures forall k :: 0 <= k < |r| ==> offset <= r[k] < offset + |b|
    ensures forall i :: 0 <= i < |b| ==> (i + offset in r <==> b[i])
  {
    if b == [] then []
    else
      var n := |b| - 1;
      var front := b[..n];
      var prefix := Positions(front, offset);
      assert forall i :: 0 <= i < n ==> front[i] == b[i];
      prefix + (if b[n] then [n + offset] else [])
  }

  /** The positions are listed in ascending order. */
  lemma {:induction false} PositionsAscending(b: seq<bool>, offset: int)
    ensures forall i, j :: 0 <= i < j < |Positions(b, offset)| ==> Positions(b, offset)[i] < Positions(b, offset)[j]
  {
    if b != [] {
      var n := |b| - 1;
      PositionsAscending(b[..n], offset);
      var prefix := Positions(b[..n], offset);
      var r := Positions(b, offset);
      assert r == prefix + (if b[n] then [n + offset] else []);
      forall i, j | 0 <= i < j < |r|
        ensures r[i] < r[j]
      {
        assert r[i] == prefix[i];
        if j == |prefix| {
          assert r[j] == n + offset;
        } else {
          assert r[j] == prefix[j];
        }
      }
    }
  }

  /** Every position is listed exactly when b holds everywhere. */
  lemma PositionsAll(b: seq<bool>, offset: int)
    ensures |Positions(b, offset)| == |b| <==> forall i :: 0 <= i < |b| ==> b[i]
  {
    if forall i :: 0 <= i < |b| ==> b[i] {
      PositionsAllTrue(b, offset);
    } else {
      var j :| 0 <= j < |b| && !b[j];
      PositionsMissing(b, offset, j);
    }
  }

  lemma {:induction false} PositionsAllTrue(b: seq<bool>, offset: int)
    requires forall i :: 0 <= i < |b| ==> b[i]
    ensures |Positions(b, offset)| == |b|
  {
    if b != [] {
      var n := |b| - 1;
      var front := b[..n];
      forall i | 0 <= i < n ensures front[i] { assert front[i] == b[i]; }
      PositionsAllTrue(front, offset);
      assert front + [b[n]] == b;
      PositionsSnoc(front, b[n], offset);
    }
  }

  lemma {:induction false} PositionsMissing(b: seq<bool>, offset: int, j: nat)
    requires j < |b| && !b[j]
    ensures |Positions(b, offset)| < |b|
  {
    var n := |b| - 1;
    var front := b[..n];
    assert front + [b[n]] == b;
    PositionsSnoc(front, b[n], offset);
    if j < n {
      assert !front[j];
      PositionsMissing(front, offset, j);
    }
  }

  /** No position is listed exactly when b holds nowhere. */
  lemma PositionsNone(b: seq<bool>, offset: int)
    ensures |Positions(b, offset)| == 0 <==> forall i :: 0 <= i < |b| ==> !b[i]
  {
    var r := Positions(b, offset);
    if |r| > 0 {
      assert offset <= r[0] < offset + |b| && r[0] in r;
      var i := r[0] - offset;
      assert i + offset in r;
    }
  }

  /** Extending b extends its positions. */
  lemma PositionsSnoc(b: seq<bool>, x: bool, offset: int)
    ensures Positions(b + [x], offset) == Positions(b, offset) + (if x then [|b| + offset] else [])
  {
    assert (b + [x])[..|b|] == b;
  }
}
