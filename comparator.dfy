/** The tolerance comparator: is a student's attempt for one sub-task
    close enough to the expected value from the answer key? Three
    generations: the current package, the older `src` package, and the
    Python 2 single-tolerance version, which answers 0 or 1. */
module Comparator {
  import opened Wrappers
  import opened Text
  import opened Cells

  /** The two bounds of a tolerance window in ascending order. */
  function SwitchTolerance(lower: real, higher: real): (r: (real, real))
    ensures r.0 <= r.1
    ensures (r.0, r.1) == (lower, higher) || (r.0, r.1) == (higher, lower)
  {
    if lower > higher then (higher, lower) else (lower, higher)
  }

  /** x lies between a and b, whichever of the two is larger. */
  predicate InWindow(x: real, a: real, b: real)
  {
    var (lo, hi) := SwitchTolerance(a, b);
    lo <= x <= hi
  }

  /** The relative window (1 -/+ t/100) * c. */
  predicate InRelWindow(x: real, c: real, t: real)
  {
    InWindow(x, (1.0 - t / 100.0) * c, (1.0 + t / 100.0) * c)
  }

  /** The absolute window c -/+ a. */
  predicate InAbsWindow(x: real, c: real, a: real)
  {
    InWindow(x, c - a, c + a)
  }

  /** A typed-in number: "," becomes "." and spaces are removed before
      float() reads it. */
  function NormalizeNumber(s: string): string
  {
    DeleteChar(ReplaceChar(s, ',', '.'), ' ')
  }

  /** The attempt as a number: a text attempt is parsed (None when float()
      rejects it), an int or float is taken as it is, anything else is not
      a number. */
  function AttemptNumber(attempt: Cell): Option<real>
  {
    if attempt.Text? then ParseFloat(NormalizeNumber(attempt.s)) else NumOf(attempt)
  }

  /** A tolerance the arithmetic accepts: unset, or an int or float. */
  predicate ToleranceUsable(t: Cell)
  {
    t.Empty? || t.Int? || t.Num?
  }

  /** The numeric branch: relative window (when set), absolute window
      (when set), or exact equality. A tolerance that is not a number
      raises TypeError, which the comparator turns into False. */
  predicate NumericMatch(x: real, c: real, rel: Cell, abs: Cell)
  {
    ToleranceUsable(rel) && ToleranceUsable(abs)
    && ((rel.Empty? == false && InRelWindow(x, c, NumOf(rel).value))
        || (abs.Empty? == false && InAbsWindow(x, c, NumOf(abs).value))
        || x == c)
  }

  /** Text comparison ignoring letter case and surrounding whitespace. */
  function Normalized(s: string): string
  {
    Strip(Lower(s))
  }

  /** compare() of the current package. */
  predicate Compare(attempt: Cell, expected: Cell, rel: Cell, abs: Cell)
  {
    match expected
    case Text(e) => Normalized(e) == Normalized(Str(attempt))
    case Empty => true
    case Num(c, _) =>
      (match AttemptNumber(attempt)
       case None => false
       case Some(x) => NumericMatch(x, c, rel, abs))
    case _ => false
  }

  /** compare() of the `src` package: as above, except that a text
      expected value calls lower() on the attempt itself, which raises an
      AttributeError (None here) the function does not catch when the
      attempt is not a text. */
  function CompareSrc(attempt: Cell, expected: Cell, rel: Cell, abs: Cell): (r: Option<bool>)
    ensures r.None? <==> expected.Text? && !attempt.Text?
  {
    match expected
    case Text(e) =>
      if attempt.Text? then Some(Normalized(e) == Normalized(attempt.s)) else None
    case _ => Some(Compare(attempt, expected, rel, abs))
  }

  /** compare() of the Python 2 version: 1 or 0. Text expected values
      match only by exact equality; numbers (ints are converted) match
      inside the relative window of the one tolerance `err`; every
      exception gives 0. The text-to-float conversion happens only when
      the expected value is already a float. */
  function CompareLegacy(attempt: Cell, expected: Cell, err: Cell): (r: int)
    ensures r == 0 || r == 1
    ensures r == 1 ==> (expected.Text? && attempt == expected) || (NumOf(expected).Some? && NumOf(err).Some?)
  {
    if expected.Text? then
      (if attempt == expected then 1 else 0)
    else
      var x := if expected.Num? && attempt.Text? then ParseFloat(NormalizeNumber(attempt.s)) else NumOf(attempt);
      match (x, NumOf(expected), NumOf(err))
      case (Some(xv), Some(c), Some(e)) =>
        if InWindow(xv, (1.0 + 0.01 * e) * c, (1.0 - 0.01 * e) * c) then 1 else 0
      case _ => 0
  }

  // ------------------------------------------------------------ properties

  /** An int expected value is never matched, not even by the same int,
      while the same value stored as a float matches itself under any
      usable tolerances: only the float branch compares numbers. */
  lemma IntExpectedNeverMatches(n: int, shown: string, rel: Cell, abs: Cell)
    requires ToleranceUsable(rel) && ToleranceUsable(abs)
    ensures !Compare(Int(n), Int(n), rel, abs)
    ensures Compare(Int(n), Num(n as real, shown), rel, abs)
  {
    CompareNumCase(Int(n), n as real, shown, rel, abs);
  }

  lemma NormalizedPadded(pad1: string, a: string, pad2: string)
    requires forall i :: 0 <= i < |pad1| ==> IsSpace(pad1[i])
    requires forall i :: 0 <= i < |pad2| ==> IsSpace(pad2[i])
    ensures Normalized(pad1 + a + pad2) == Normalized(a)
  {
    var l1, l2 := Lower(pad1), Lower(pad2);
    assert Lower(pad1 + a + pad2) == l1 + Lower(a) + l2 by {
      LowerConcat(pad1, a);
      LowerConcat(pad1 + a, pad2);
    }
    assert forall i :: 0 <= i < |l1| ==> IsSpace(l1[i]);
    assert forall i :: 0 <= i < |l2| ==> IsSpace(l2[i]);
    StripPadded(l1, Lower(a), l2);
  }

  lemma CompareTextCase(x: string, e: string, rel: Cell, abs: Cell)
    ensures Compare(Text(x), Text(e), rel, abs) == (Normalized(e) == Normalized(x))
  {
  }

  /** Between texts the comparison is an equivalence that the tolerances
      take no part in: swapping the sides or changing the tolerances
      keeps the verdict, and two texts matching a third match each
      other. */
  lemma {:induction false} CompareTextEquivalence(a: string, b: string, c: string, rel: Cell, abs: Cell, rel': Cell, abs': Cell)
    ensures Compare(Text(a), Text(a), rel, abs)
    ensures Compare(Text(a), Text(b), rel, abs) == Compare(Text(b), Text(a), rel', abs')
    ensures Compare(Text(a), Text(c), rel, abs) && Compare(Text(b), Text(c), rel, abs) ==> Compare(Text(a), Text(b), rel, abs)
  {
    CompareTextCase(a, a, rel, abs);
    CompareTextCase(a, b, rel, abs);
    CompareTextCase(b, a, rel', abs');
    CompareTextCase(a, c, rel, abs);
    CompareTextCase(b, c, rel, abs);
  }

  lemma CompareNumCase(attempt: Cell, c: real, shown: string, rel: Cell, abs: Cell)
    ensures Compare(attempt, Num(c, shown), rel, abs)
            == (AttemptNumber(attempt).Some? && NumericMatch(AttemptNumber(attempt).value, c, rel, abs))
  {
  }

  /** Letter case and surrounding whitespace of a text answer do not
      matter against a text expected value. */
  lemma CompareTextIgnoresCaseAndPadding(pad1: string, a: string, pad2: string, e: string, rel: Cell, abs: Cell)
    requires forall i :: 0 <= i < |pad1| ==> IsSpace(pad1[i])
    requires forall i :: 0 <= i < |pad2| ==> IsSpace(pad2[i])
    ensures Compare(Text(pad1 + a + pad2), Text(e), rel, abs) == Compare(Text(a), Text(e), rel, abs)
    ensures Compare(Text(Lower(a)), Text(e), rel, abs) == Compare(Text(a), Text(e), rel, abs)
  {
    NormalizedPadded(pad1, a, pad2);
    LowerIdempotent(a);
    CompareTextCase(pad1 + a + pad2, e, rel, abs);
    CompareTextCase(a, e, rel, abs);
    CompareTextCase(Lower(a), e, rel, abs);
  }

  /** Normalizing the decimal comma and spaces of a text attempt first
      changes nothing: the comparator does it itself. */
  lemma CompareNormalizesTextAttempt(s: string, c: real, shown: string, rel: Cell, abs: Cell)
    ensures Compare(Text(NormalizeNumber(s)), Num(c, shown), rel, abs) == Compare(Text(s), Num(c, shown), rel, abs)
  {
    var n := NormalizeNumber(s);
    var m := ReplaceChar(s, ',', '.');
    assert ',' !in m;
    assert ',' !in n;
    assert ReplaceChar(n, ',', '.') == n;
    DeleteCharAbsent(n, ' ');
    assert NormalizeNumber(n) == n;
  }

  /** A whole number typed as text is compared exactly as the number. */
  lemma CompareTextNumberAsNumber(n: nat, expected: Cell, rel: Cell, abs: Cell)
    requires expected.Num?
    ensures Compare(Text(NatToString(n)), expected, rel, abs) == Compare(Int(n), expected, rel, abs)
  {
    var s := NatToString(n);
    assert NormalizeNumber(s) == s by {
      assert forall i :: 0 <= i < |s| ==> s[i] != ',' && s[i] != ' ';
      assert ReplaceChar(s, ',', '.') == s;
      DeleteCharAbsent(s, ' ');
    }
    ParseNumbersRoundTrip(n);
    assert AttemptNumber(Text(s)) == Some(n as real);
    CompareNumCase(Text(s), expected.value, expected.shown, rel, abs);
    CompareNumCase(Int(n), expected.value, expected.shown, rel, abs);
  }

  /** Without tolerances only equality matches. */
  lemma CompareWithoutToleranceIsEquality(attempt: Cell, c: real, shown: string)
    requires NumOf(attempt).Some?
    ensures Compare(attempt, Num(c, shown), Empty, Empty) <==> NumOf(attempt).value == c
  {
  }

  /** Both ends of the relative window are inside it, whatever the signs
      of the expected value and the tolerance. */
  lemma CompareRelativeBoundsInclusive(c: real, t: real, shown: string, s1: string, s2: string)
    ensures Compare(Num((1.0 - t / 100.0) * c, s1), Num(c, shown), Num(t, s2), Empty)
    ensures Compare(Num((1.0 + t / 100.0) * c, s1), Num(c, shown), Num(t, s2), Empty)
  {
  }

  /** The converse: a number outside every window that is set, and not
      equal to the expected value, does not match. */
  lemma CompareOutsideWindowsFails(x: real, c: real, rel: Cell, abs: Cell, s1: string, s2: string)
    requires NumOf(rel).None? || !InRelWindow(x, c, NumOf(rel).value)
    requires NumOf(abs).None? || !InAbsWindow(x, c, NumOf(abs).value)
    requires x != c
    ensures !Compare(Num(x, s1), Num(c, s2), rel, abs)
  {
  }

  /** Just beyond either end of the relative window (by any d > 0), the
      attempt is refused, for a positive or a negative expected value. */
  lemma CompareBeyondRelativeFails(c: real, t: real, d: real, shown: string, s1: string, s2: string)
    requires t >= 0.0 && d > 0.0 && c != 0.0
    ensures !Compare(Num((1.0 + t / 100.0) * c + (if c > 0.0 then d else -d), s1), Num(c, shown), Num(t, s2), Empty)
    ensures !Compare(Num((1.0 - t / 100.0) * c - (if c > 0.0 then d else -d), s1), Num(c, shown), Num(t, s2), Empty)
  {
    var e := if c > 0.0 then d else -d;
    var lo, hi := (1.0 - t / 100.0) * c, (1.0 + t / 100.0) * c;
    assert c > 0.0 ==> lo <= c <= hi;
    assert c < 0.0 ==> hi <= c <= lo;
    CompareOutsideWindowsFails(hi + e, c, Num(t, s2), Empty, s1, shown);
    CompareOutsideWindowsFails(lo - e, c, Num(t, s2), Empty, s1, shown);
  }

  lemma RelWindowMirror(x: real, c: real, t: real)
    ensures InRelWindow(-x, -c, t) == InRelWindow(x, c, t)
  {
    assert (1.0 - t / 100.0) * -c == -((1.0 - t / 100.0) * c);
    assert (1.0 + t / 100.0) * -c == -((1.0 + t / 100.0) * c);
  }

  /** Mirroring attempt and expected value at zero does not change the
      verdict: the windows are sorted before use. */
  lemma CompareSignSymmetric(x: real, c: real, rel: Cell, abs: Cell, s1: string, s2: string, s3: string, s4: string)
    ensures Compare(Num(-x, s1), Num(-c, s2), rel, abs) == Compare(Num(x, s3), Num(c, s4), rel, abs)
  {
    if rel.Int? || rel.Num? {
      RelWindowMirror(x, c, NumOf(rel).value);
    }
    if abs.Int? || abs.Num? {
      var a := NumOf(abs).value;
      assert InAbsWindow(-x, -c, a) == InAbsWindow(x, c, a);
    }
  }

  /** The expected value lies in its own relative window. */
  lemma ExpectedInRelWindow(c: real, t: real)
    ensures InRelWindow(c, c, t)
  {
    assert (1.0 - t / 100.0) * c + (1.0 + t / 100.0) * c == 2.0 * c;
  }

  lemma RelWindowMonotone(x: real, c: real, t: real, t': real)
    requires 0.0 <= t <= t'
    requires InRelWindow(x, c, t)
    ensures InRelWindow(x, c, t')
  {
    var k, k' := t * c / 100.0, t' * c / 100.0;
    assert (1.0 - t / 100.0) * c == c - k && (1.0 + t / 100.0) * c == c + k;
    assert (1.0 - t' / 100.0) * c == c - k' && (1.0 + t' / 100.0) * c == c + k';
    if c >= 0.0 {
      assert t' * c >= t * c;
      assert 0.0 <= k <= k';
    } else {
      assert t' * c <= t * c;
      assert k' <= k <= 0.0;
    }
  }

  /** Widening a relative tolerance never loses a match. */
  lemma CompareWiderRelativeTolerance(attempt: Cell, c: real, t: real, t': real, abs: Cell, shown: string, s1: string, s2: string)
    requires 0.0 <= t <= t'
    requires Compare(attempt, Num(c, shown), Num(t, s1), abs)
    ensures Compare(attempt, Num(c, shown), Num(t', s2), abs)
  {
    var x := AttemptNumber(attempt).value;
    if InRelWindow(x, c, t) {
      RelWindowMonotone(x, c, t, t');
    }
  }

  /** Widening an absolute tolerance never loses a match. */
  lemma CompareWiderAbsoluteTolerance(attempt: Cell, c: real, a: real, a': real, rel: Cell, shown: string, s1: string, s2: string)
    requires 0.0 <= a <= a'
    requires Compare(attempt, Num(c, shown), rel, Num(a, s1))
    ensures Compare(attempt, Num(c, shown), rel, Num(a', s2))
  {
  }

  /** The `src` comparator agrees with the current one wherever it does
      not raise, except that it reads a text attempt without str(). */
  lemma CompareSrcAgrees(attempt: Cell, expected: Cell, rel: Cell, abs: Cell)
    requires CompareSrc(attempt, expected, rel, abs).Some?
    ensures CompareSrc(attempt, expected, rel, abs).value == Compare(attempt, expected, rel, abs)
  {
  }

  /** On numbers the Python 2 single tolerance is the current relative
      tolerance: the current comparator's extra equality case is inside
      the window anyway. */
  lemma CompareLegacyIsRelativeTolerance(x: real, c: real, e: real, s1: string, s2: string, s3: string)
    ensures CompareLegacy(Num(x, s1), Num(c, s2), Num(e, s3)) == 1
            <==> Compare(Num(x, s1), Num(c, s2), Num(e, s3), Empty)
  {
    ExpectedInRelWindow(c, e);
    assert 0.01 * e == e / 100.0;
  }

  /** Against a text expected value the Python 2 comparator is stricter
      than the current one: each of its matches is a current match, and
      letter case, which the current one ignores, makes it refuse. */
  lemma {:induction false} CompareLegacyTextStricter(attempt: Cell, e: string, err: Cell, rel: Cell, abs: Cell)
    ensures CompareLegacy(attempt, Text(e), err) == 1 ==> Compare(attempt, Text(e), rel, abs)
    ensures CompareLegacy(Text("A"), Text("a"), err) == 0 && Compare(Text("A"), Text("a"), rel, abs)
  {
    if CompareLegacy(attempt, Text(e), err) == 1 {
      CompareTextCase(e, e, rel, abs);
    }
    assert Lower("A") == "a" && Lower("a") == "a";
    StripOfStripped("a");
    CompareTextCase("A", "a", rel, abs);
  }

  /** Under Python 2's mixed-type order a cell that is not a number never
      lies between two numbers: None is below both, a text above both,
      and a date raises (caught, 0). So the window tests of the Python 2
      comparator fail for such an attempt (a text attempt against a float
      is parsed first), as CompareLegacy has it. */
  lemma LegacyWindowExcludesNonNumbers(a: Cell, lo: real, hi: real, s1: string, s2: string, err: Cell)
    requires NumOf(a).None?
    ensures var below, above := Py2Order(a, Num(hi, s1)), Py2Order(a, Num(lo, s2));
            below.None? || above.None? || below.value == 1 || above.value == -1
    ensures !a.Text? ==> CompareLegacy(a, Num(lo, s2), err) == 0
  {
    Py2OrderFacts(a, Num(hi, s1));
    Py2OrderFacts(a, Num(lo, s2));
  }

  /** An expected value of None never matches in the Python 2 comparator,
      while the current one accepts anything. */
  lemma CompareLegacyNoneExpected(attempt: Cell, err: Cell)
    ensures CompareLegacy(attempt, Empty, err) == 0
    ensures Compare(attempt, Empty, err, Empty)
  {
  }
}
