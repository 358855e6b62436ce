/** The table of the detailed results mail of the first front end: one
    row per compared variable with its verdict. */
module LegacyResults {
  import opened Wrappers
  import Verification

  /** The verdict word of a row: "Falsch" for a wrong value, "Richtig"
      otherwise. */
  function Word(verdict: int): string
  {
    if verdict == 0 then "Falsch" else "Richtig"
  }

  function Color(verdict: int): string
  {
    if verdict == 0 then "red" else "green"
  }

  /** One row of the results table: the variable's name and its verdict
      word in the verdict's colour. */
  function RowHtml(name: string, verdict: int): string
  {
    "<tr><td>" + name + "</td><td><font color=\"" + Color(verdict) + "\">" + Word(verdict) + "</font></td></tr>"
  }

  /** The table after the first n rows. */
  function Table(names: seq<string>, resol: seq<int>, n: nat): string
    requires n <= |resol| && n <= |names|
  {
    if n == 0 then "" else Table(names, resol, n - 1) + RowHtml(names[n - 1], resol[n - 1])
  }

  /** The row loop: one row per verdict; a names list shorter than the
      verdicts raises IndexError. */
  method ResultsRows(names: seq<string>, resol: seq<int>) returns (r: Option<string>)
    ensures r.None? <==> |names| < |resol|
    ensures r.Some? ==> r.value == Table(names, resol, |resol|)
  {
    var html := "";
    var i := 0;
    while i < |resol|
      invariant 0 <= i <= |resol|
      invariant i <= |names| && html == Table(names, resol, i)
    {
      if i >= |names| {
        return None;
      }
      html := html + RowHtml(names[i], resol[i]);
      i := i + 1;
    }
    r := Some(html);
  }

  /** With 0/1 verdicts, every row reads "Richtig" exactly when the part
      scored 100 percent. */
  lemma AllRichtigIffFull(resol: seq<int>)
    requires |resol| > 0
    requires forall i :: 0 <= i < |resol| ==> resol[i] == 0 || resol[i] == 1
    ensures (forall i :: 0 <= i < |resol| ==> Word(resol[i]) == "Richtig") <==> Verification.TeilScore(resol) == Verification.Full
  {
    Verification.TeilScoreRange(resol);
  }
}
