/** The handful of Python string operations PyCor relies on, on
    ASCII text: lower(), strip(), `in`, endswith(), the negative slices
    `s[-n:]` / `s[:n]`, replace(pattern, "") and the number parsers
    int() and float() restricted to plain decimal notation. */
module Text {
  import opened Wrappers

  // ---------------------------------------------------------------- case

  function LowerChar(c: char): char
  {
    if 'A' <= c <= 'Z' then (c as int + 32) as char else c
  }

  /** str.lower(), ASCII letters only. */
  function Lower(s: string): (r: string)
    ensures |r| == |s|
    ensures forall i :: 0 <= i < |s| ==> r[i] == LowerChar(s[i])
  {
    seq(|s|, i requires 0 <= i < |s| => LowerChar(s[i]))
  }

  lemma LowerIdempotent(s: string)
    ensures Lower(Lower(s)) == Lower(s)
  {
  }

  lemma LowerConcat(a: string, b: string)
    ensures Lower(a + b) == Lower(a) + Lower(b)
  {
  }

  // ---------------------------------------------------------- whitespace

  /** The ASCII characters str.strip() removes from a text: blank, tab,
      line feed, carriage return, vertical tab, form feed and the four
      separators 0x1C to 0x1F. */
  predicate IsSpace(c: char)
  {
    c == ' ' || c == '\t' || c == '\n' || c == '\r' || c == '\U{0B}' || c == '\U{0C}'
    || ('\U{1C}' <= c <= '\U{1F}')
  }

  function StripLeft(s: string): string
  {
    if |s| > 0 && IsSpace(s[0]) then StripLeft(s[1..]) else s
  }

  function StripRight(s: string): string
  {
    if |s| > 0 && IsSpace(s[|s| - 1]) then StripRight(s[..|s| - 1]) else s
  }

  /** StripLeft drops the leading whitespace and nothing else. */
  lemma {:induction false} StripLeftDrops(s: string)
    ensures var r := StripLeft(s);
            && |r| <= |s| && r == s[|s| - |r|..]
            && (forall i :: 0 <= i < |s| - |r| ==> IsSpace(s[i]))
            && (r == [] || !IsSpace(r[0]))
    decreases |s|
  {
    if |s| > 0 && IsSpace(s[0]) {
      StripLeftDrops(s[1..]);
    }
  }

  /** StripRight drops the trailing whitespace and nothing else. */
  lemma {:induction false} StripRightDrops(s: string)
    ensures var r := StripRight(s);
            && |r| <= |s| && r == s[..|r|]
            && (forall i :: |r| <= i < |s| ==> IsSpace(s[i]))
            && (r == [] || !IsSpace(r[|r| - 1]))
    decreases |s|
  {
    if |s| > 0 && IsSpace(s[|s| - 1]) {
      StripRightDrops(s[..|s| - 1]);
    }
  }

  /** str.strip(): leading and trailing whitespace removed. */
  function Strip(s: string): string
  {
    StripRight(StripLeft(s))
  }

  predicate IsStripped(s: string)
  {
    s == [] || (!IsSpace(s[0]) && !IsSpace(s[|s| - 1]))
  }

  /** strip() leaves no whitespace at either end. */
  lemma StripIsStripped(s: string)
    ensures IsStripped(Strip(s))
  {
    var l := StripLeft(s);
    var r := StripRight(l);
    StripLeftDrops(s);
    StripRightDrops(l);
    if r != [] {
      assert r[0] == l[0];
    }
  }

  /** strip() leaves no whitespace at either end, so a second strip()
      changes nothing. */
  lemma StripResult(s: string)
    ensures IsStripped(Strip(s))
    ensures Strip(Strip(s)) == Strip(s)
  {
    StripIsStripped(s);
    StripOfStripped(Strip(s));
  }

  /** Leading whitespace in front of s does not change its strip. */
  lemma {:induction false} StripLeftPadded(pad: string, s: string)
    requires forall i :: 0 <= i < |pad| ==> IsSpace(pad[i])
    ensures StripLeft(pad + s) == StripLeft(s)
    decreases |pad|
  {
    if pad != [] {
      assert (pad + s)[0] == pad[0];
      assert (pad + s)[1..] == pad[1..] + s;
      StripLeftPadded(pad[1..], s);
    } else {
      assert pad + s == s;
    }
  }

  lemma {:induction false} StripRightPadded(s: string, pad: string)
    requires forall i :: 0 <= i < |pad| ==> IsSpace(pad[i])
    ensures StripRight(s + pad) == StripRight(s)
    decreases |pad|
  {
    if pad != [] {
      var t := s + pad;
      assert t[|t| - 1] == pad[|pad| - 1];
      assert t[..|t| - 1] == s + pad[..|pad| - 1];
      StripRightPadded(s, pad[..|pad| - 1]);
    } else {
      assert s + pad == s;
    }
  }

  lemma {:induction false} StripLeftAppend(s: string, q: string)
    ensures StripLeft(s) != [] ==> StripLeft(s + q) == StripLeft(s) + q
    ensures StripLeft(s) == [] ==> StripLeft(s + q) == StripLeft(q)
    decreases |s|
  {
    if s != [] {
      assert (s + q)[0] == s[0];
      if IsSpace(s[0]) {
        assert (s + q)[1..] == s[1..] + q;
        StripLeftAppend(s[1..], q);
      }
    } else {
      assert s + q == q;
    }
  }

  /** Whitespace around a text does not change what strip() makes of it. */
  lemma StripPadded(pad1: string, s: string, pad2: string)
    requires forall i :: 0 <= i < |pad1| ==> IsSpace(pad1[i])
    requires forall i :: 0 <= i < |pad2| ==> IsSpace(pad2[i])
    ensures Strip(pad1 + s + pad2) == Strip(s)
  {
    assert pad1 + s + pad2 == pad1 + (s + pad2);
    StripLeftPadded(pad1, s + pad2);
    StripLeftAppend(s, pad2);
    if StripLeft(s) != [] {
      StripRightPadded(StripLeft(s), pad2);
    } else {
      StripLeftPadded(pad2, []);
      assert pad2 + [] == pad2;
    }
  }

  lemma StripOfStripped(s: string)
    requires IsStripped(s)
    ensures Strip(s) == s
  {
  }

  lemma LowerKeepsStripped(s: string)
    requires IsStripped(s)
    ensures IsStripped(Lower(s))
  {
  }

  // ----------------------------------------------------------- searching

  predicate StartsWith(s: string, p: string)
  {
    |p| <= |s| && s[..|p|] == p
  }

  predicate EndsWith(s: string, p: string)
  {
    |p| <= |s| && s[|s| - |p|..] == p
  }

  /** EndsWith, character by character from the end; for tests against a
      literal it is far cheaper for the solver than comparing slices. */
  predicate HasSuffix(s: string, p: string)
    decreases |p|
  {
    |p| == 0 || (|s| > 0 && s[|s| - 1] == p[|p| - 1] && HasSuffix(s[..|s| - 1], p[..|p| - 1]))
  }

  lemma {:induction false} HasSuffixIsEndsWith(s: string, p: string)
    ensures HasSuffix(s, p) <==> EndsWith(s, p)
    decreases |p|
  {
    if |p| > 0 && |s| > 0 {
      HasSuffixIsEndsWith(s[..|s| - 1], p[..|p| - 1]);
      if EndsWith(s, p) {
        assert s[..|s| - 1][|s| - |p|..] == s[|s| - |p|..][..|p| - 1];
      }
      if HasSuffix(s, p) {
        assert s[|s| - |p|..] == s[..|s| - 1][|s| - |p|..] + [s[|s| - 1]];
        assert p == p[..|p| - 1] + [p[|p| - 1]];
      }
    }
  }

  /** Python's `p in s` for strings. */
  predicate Contains(s: string, p: string)
    decreases |s|
  {
    StartsWith(s, p) || (|s| > 0 && Contains(s[1..], p))
  }

  lemma {:induction false} ContainsAt(s: string, p: string, i: nat)
    requires i + |p| <= |s| && s[i..i + |p|] == p
    ensures Contains(s, p)
    decreases i
  {
    if i > 0 {
      assert s[1..][i - 1..i - 1 + |p|] == p;
      ContainsAt(s[1..], p, i - 1);
    }
  }

  /** A string contains whatever one of its suffixes contains. */
  lemma {:induction false} ContainsViaSuffix(s: string, q: string, p: string)
    requires EndsWith(s, q) && Contains(q, p)
    ensures Contains(s, p)
    decreases |s|
  {
    if |s| > |q| {
      assert s[1..][|s[1..]| - |q|..] == s[|s| - |q|..];
      ContainsViaSuffix(s[1..], q, p);
    } else {
      assert s == q;
    }
  }

  /** Every character of a contained string occurs in the container. */
  lemma {:induction false} ContainsHasChar(s: string, p: string, k: nat)
    requires k < |p| && Contains(s, p)
    ensures p[k] in s
    decreases |s|
  {
    if StartsWith(s, p) {
      assert s[k] == p[k];
    } else {
      ContainsHasChar(s[1..], p, k);
      assert p[k] in s[1..];
    }
  }

  /** The slice `s[-n:]` of Python: the last n characters, or all of s
      when it is shorter. */
  function LastChars(s: string, n: nat): (r: string)
    ensures |r| == if |s| < n then |s| else n
    ensures EndsWith(s, r)
  {
    if |s| <= n then s else s[|s| - n..]
  }

  /** The slice `s[:n]` of Python. */
  function FirstChars(s: string, n: nat): (r: string)
    ensures |r| == if |s| < n then |s| else n
    ensures StartsWith(s, r)
  {
    if |s| <= n then s else s[..n]
  }

  lemma LastCharsIsSuffixTest(s: string, p: string)
    ensures LastChars(s, |p|) == p <==> EndsWith(s, p)
  {
  }

  lemma FirstCharsIsPrefixTest(s: string, p: string)
    ensures FirstChars(s, |p|) == p <==> StartsWith(s, p)
  {
  }

  // ------------------------------------------------------------- replace

  /** s.replace(p, ""): occurrences of p removed in one pass from left to
      right, non-overlapping, so text the removal brings together is not
      searched again. */
  function RemoveAll(s: string, p: string): (r: string)
    requires |p| > 0
    ensures |r| <= |s|
    decreases |s|
  {
    if |s| < |p| then s
    else if s[..|p|] == p then RemoveAll(s[|p|..], p)
    else [s[0]] + RemoveAll(s[1..], p)
  }

  /** One pass only: removing ".xlsx" from ".x.xlsxlsx" leaves a new
      ".xlsx" made of the remains. */
  lemma RemoveAllSinglePass()
    ensures Contains(".x.xlsxlsx", ".xlsx")
    ensures RemoveAll(".x.xlsxlsx", ".xlsx") == ".xlsx" && Strip(".xlsx") == ".xlsx"
  {
    var s := ".x.xlsxlsx";
    assert s[2..7] == ".xlsx";
    ContainsAt(s, ".xlsx", 2);
    assert IsStripped(".xlsx");
    StripOfStripped(".xlsx");
    assert s[..5][2] != ".xlsx"[2];
    assert s[1..][..5][1] != ".xlsx"[1];
    assert s[2..][..5] == ".xlsx";
    assert s[2..][5..] == "lsx";
    assert RemoveAll("lsx", ".xlsx") == "lsx";
    assert RemoveAll(s[2..], ".xlsx") == "lsx";
    assert RemoveAll(s[1..], ".xlsx") == "xlsx";
  }

  /** Text without any occurrence of p is left as it is. */
  lemma {:induction false} RemoveAllAbsent(s: string, p: string)
    requires |p| > 0 && !Contains(s, p)
    ensures RemoveAll(s, p) == s
    decreases |s|
  {
    if |s| >= |p| {
      assert s[..|p|] != p;
      RemoveAllAbsent(s[1..], p);
      assert s == [s[0]] + s[1..];
    }
  }

  /** p cannot overlap itself: no proper non-empty suffix of p is a
      prefix of p. ".xlsx" is such a pattern. */
  predicate BorderFree(p: string)
  {
    forall j :: 0 < j < |p| ==> p[j..] != p[..|p| - j]
  }

  /** Removing a border-free p from `s + p`, where s holds no p, gives s
      back: the appended p is the only occurrence the scan meets. */
  lemma {:induction false} RemoveAllAppended(s: string, p: string)
    requires |p| > 0 && BorderFree(p) && !Contains(s, p)
    ensures RemoveAll(s + p, p) == s
    decreases |s|
  {
    var t := s + p;
    if |s| == 0 {
      assert t[..|p|] == p;
      assert t[|p|..] == [];
    } else {
      assert t[..|p|] != p by {
        if |s| >= |p| {
          assert !StartsWith(s, p);
          assert t[..|p|] == s[..|p|];
        } else {
          var j := |s|;
          assert t[..|p|][j..] == t[j..|p|] == p[..|p| - j];
          assert p[j..] != p[..|p| - j];
        }
      }
      assert !Contains(s[1..], p);
      RemoveAllAppended(s[1..], p);
      assert t[1..] == s[1..] + p;
      assert s == [s[0]] + s[1..];
    }
  }

  lemma XlsxBorderFree()
    ensures BorderFree(".xlsx")
  {
    var p := ".xlsx";
    forall j | 0 < j < |p|
      ensures p[j..] != p[..|p| - j]
    {
      assert p[j..][0] == p[j] != '.' == p[..|p| - j][0];
    }
  }

  // ------------------------------------------------------------- numbers

  predicate IsDigit(c: char)
  {
    '0' <= c <= '9'
  }

  predicate AllDigits(s: string)
  {
    forall i :: 0 <= i < |s| ==> IsDigit(s[i])
  }

  function DigitValue(c: char): nat
    requires IsDigit(c)
  {
    c as int - '0' as int
  }

  /** The value of a run of decimal digits, most significant first. */
  function DigitsValue(s: string): nat
    requires AllDigits(s)
  {
    if s == [] then 0 else DigitsValue(s[..|s| - 1]) * 10 + DigitValue(s[|s| - 1])
  }

  function Pow10(n: nat): (r: nat)
    ensures r >= 1
  {
    if n == 0 then 1 else 10 * Pow10(n - 1)
  }

  /** The decimal text of a natural number, as str() writes it. */
  function NatToString(n: nat): (r: string)
    ensures |r| > 0 && AllDigits(r)
  {
    if n < 10 then [('0' as int + n) as char]
    else NatToString(n / 10) + [('0' as int + n % 10) as char]
  }

  /** Reading back what NatToString wrote gives the number again. */
  lemma {:induction false} NatToStringRoundTrip(n: nat)
    ensures DigitsValue(NatToString(n)) == n
  {
    if n >= 10 {
      var s := NatToString(n);
      assert s[..|s| - 1] == NatToString(n / 10);
      NatToStringRoundTrip(n / 10);
    }
  }

  /** str() of an int. */
  function IntToString(i: int): string
  {
    if i < 0 then "-" + NatToString(-i) else NatToString(i)
  }

  /** A natural number written as decimal digits, as int(label[1:])
      reads it. */
  function ParseNat(s: string): (r: Option<nat>)
    ensures r.Some? <==> |s| > 0 && AllDigits(s)
  {
    if |s| > 0 && AllDigits(s) then Some(DigitsValue(s)) else None
  }

  lemma ParseNatRoundTrip(n: nat)
    ensures ParseNat(NatToString(n)) == Some(n)
  {
    NatToStringRoundTrip(n);
  }

  /** Digits in groups joined by single underscores ("1_000"), the form
      Python 3's int() accepts. */
  predicate GroupedDigits(s: string)
  {
    && |s| > 0 && IsDigit(s[0]) && IsDigit(s[|s| - 1])
    && (forall i :: 0 <= i < |s| ==> IsDigit(s[i]) || s[i] == '_')
    && (forall i :: 0 <= i < |s| - 1 ==> s[i] == '_' ==> IsDigit(s[i + 1]))
  }

  /** The digits of s, underscores dropped. */
  function DropUnderscores(s: string): (r: string)
    ensures (forall i :: 0 <= i < |s| ==> IsDigit(s[i]) || s[i] == '_') ==> AllDigits(r)
    ensures AllDigits(s) ==> r == s
  {
    if s == [] then []
    else (if s[0] == '_' then [] else [s[0]]) + DropUnderscores(s[1..])
  }

  /** A natural number as Python 3's int() reads it. */
  function ParseGroupedNat(s: string): (r: Option<nat>)
    ensures r.Some? <==> GroupedDigits(s)
  {
    if GroupedDigits(s) then Some(DigitsValue(DropUnderscores(s))) else None
  }

  /** Python 3's int() of a text: surrounding whitespace, an optional
      sign, digits with single underscores allowed between them. */
  function ParseInt(s: string): Option<int>
  {
    var t := Strip(s);
    if |t| > 0 && (t[0] == '-' || t[0] == '+') then
      match ParseGroupedNat(t[1..])
      case None => None
      case Some(n) =>
        Some(if t[0] == '-' then -(n as int) else n as int)
    else
      match ParseGroupedNat(t)
      case None => None
      case Some(n) => Some(n)
  }

  /** Python 2's int() of a text: surrounding whitespace, an optional
      sign, one or more digits and nothing else. */
  function ParseInt2(s: string): Option<int>
  {
    var t := Strip(s);
    if |t| > 0 && (t[0] == '-' || t[0] == '+') then
      match ParseNat(t[1..])
      case None => None
      case Some(n) =>
        Some(if t[0] == '-' then -(n as int) else n as int)
    else
      match ParseNat(t)
      case None => None
      case Some(n) => Some(n)
  }

  /** Every text Python 2 reads as an int, Python 3 reads as the same
      int. */
  lemma ParseIntExtends(s: string)
    ensures ParseInt2(s).Some? ==> ParseInt(s) == ParseInt2(s)
  {
    var t := Strip(s);
    if |t| > 0 && (t[0] == '-' || t[0] == '+') {
      if ParseNat(t[1..]).Some? {
        assert GroupedDigits(t[1..]);
      }
    } else if ParseNat(t).Some? {
      assert GroupedDigits(t);
    }
  }

  /** Python 3 reads "1_000" where Python 2 refuses it; a doubled or a
      leading underscore is refused by both. */
  lemma ParseIntUnderscores()
    ensures ParseInt("1_000") == Some(1000) && ParseInt2("1_000") == None
    ensures ParseInt("1__0") == None && ParseInt("_1") == None
  {
    GroupedThousand();
    UnsignedParse("1_000");
    UnsignedParse("1__0");
    assert !GroupedDigits("1__0") by { assert "1__0"[1] == '_' && "1__0"[2] == '_'; }
    UnsignedParse("_1");
    assert !GroupedDigits("_1") by { assert "_1"[0] == '_'; }
  }

  /** A stripped text without a sign is read as a bare number. */
  lemma UnsignedParse(t: string)
    requires IsStripped(t) && |t| > 0 && t[0] != '-' && t[0] != '+'
    ensures ParseInt(t) == (if GroupedDigits(t) then Some(ParseGroupedNat(t).value as int) else None)
    ensures ParseInt2(t) == (if |t| > 0 && AllDigits(t) then Some(ParseNat(t).value as int) else None)
  {
    StripOfStripped(t);
  }

  /** "1_000" is a grouped number of value 1000 and not a run of digits. */
  lemma GroupedThousand()
    ensures ParseGroupedNat("1_000") == Some(1000) && !AllDigits("1_000")
  {
    assert !AllDigits("1_000") by { assert "1_000"[1] == '_'; }
    DropThousand();
    DigitsThousand();
  }

  lemma DropThousand()
    ensures DropUnderscores("1_000") == "1000"
  {
    assert DropUnderscores("0") == "0";
    assert "00"[1..] == "0";
    assert DropUnderscores("00") == "00";
    assert "000"[1..] == "00";
    assert DropUnderscores("000") == "000";
    assert "_000"[1..] == "000";
    assert "1_000"[1..] == "_000";
  }

  lemma DigitsThousand()
    ensures DigitsValue("1000") == 1000
  {
    assert "10"[..1] == "1";
    assert DigitsValue("10") == 10;
    assert "100"[..2] == "10";
    assert DigitsValue("100") == 100;
    assert "1000"[..3] == "100";
  }

  /** Index of the first occurrence of c, if any. */
  function IndexOf(s: string, c: char): (r: Option<nat>)
    ensures r.Some? ==> r.value < |s| && s[r.value] == c && c !in s[..r.value]
    ensures r.None? ==> c !in s
  {
    if |s| == 0 then None
    else if s[0] == c then Some(0)
    else match IndexOf(s[1..], c)
      case None => None
      case Some(k) => Some(k + 1)
  }

  /** An unsigned decimal: digits, optionally one point and more digits,
      with at least one digit in all. */
  function ParseUnsignedDecimal(s: string): Option<real>
  {
    match IndexOf(s, '.')
    case None =>
      if |s| > 0 && AllDigits(s) then Some(DigitsValue(s) as real) else None
    case Some(k) =>
      var whole := s[..k];
      var frac := s[k + 1..];
      if AllDigits(whole) && AllDigits(frac) && |whole| + |frac| > 0 then
        Some(DigitsValue(whole) as real + DigitsValue(frac) as real / Pow10(|frac|) as real)
      else None
  }

  /** float() of a text, for plain decimal notation with an optional sign
      and surrounding whitespace. */
  function ParseFloat(s: string): Option<real>
  {
    var t := Strip(s);
    if |t| > 0 && (t[0] == '-' || t[0] == '+') then
      match ParseUnsignedDecimal(t[1..])
      case None => None
      case Some(x) => Some(if t[0] == '-' then -x else x)
    else ParseUnsignedDecimal(t)
  }

  /** The text of a natural number reads back as that number, by int()
      and by float() alike. */
  lemma {:induction false} ParseNumbersRoundTrip(n: nat)
    ensures ParseInt(NatToString(n)) == Some(n)
    ensures ParseFloat(NatToString(n)) == Some(n as real)
  {
    var s := NatToString(n);
    assert IsStripped(s) by {
      assert IsDigit(s[0]) && IsDigit(s[|s| - 1]);
    }
    StripOfStripped(s);
    assert s[0] != '-' && s[0] != '+' by { assert IsDigit(s[0]); }
    NatToStringRoundTrip(n);
    assert '.' !in s by {
      assert forall i :: 0 <= i < |s| ==> s[i] != '.';
    }
  }

  /** s.replace(from, to) for single characters. */
  function ReplaceChar(s: string, from: char, to: char): (r: string)
    ensures |r| == |s|
    ensures forall i :: 0 <= i < |s| ==> r[i] == (if s[i] == from then to else s[i])
  {
    seq(|s|, i requires 0 <= i < |s| => if s[i] == from then to else s[i])
  }

  /** s.replace(c, "") for a single character. */
  function DeleteChar(s: string, c: char): (r: string)
    ensures c !in r
    ensures forall d :: d in r ==> d in s
    ensures |r| <= |s|
  {
    if s == [] then []
    else if s[0] == c then DeleteChar(s[1..], c)
    else [s[0]] + DeleteChar(s[1..], c)
  }

  lemma {:induction false} DeleteCharAbsent(s: string, c: char)
    requires c !in s
    ensures DeleteChar(s, c) == s
  {
    if s != [] {
      DeleteCharAbsent(s[1..], c);
      assert s == [s[0]] + s[1..];
    }
  }
}
