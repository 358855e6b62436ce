/** The decisions of the first mail front end: which servers an account
    uses, which senders count, how many Excel attachments a message
    carries. */
module LegacyMail {
  import opened Wrappers
  import opened Text
  import Mail

  // ------------------------------------------------------ choose_server

  /** The IMAP and SMTP servers for an account: gmail when the last nine
      characters are "gmail.com", else the campus server when the last
      twelve are "fh-aachen.de", else two empty names. */
  function ChooseServer(usn: string): (string, string)
  {
    if LastChars(usn, 9) == "gmail.com" then ("imap.gmail.com", "smtp.gmail.com:465")
    else if LastChars(usn, 12) == "fh-aachen.de" then ("mail.fh-aachen.de", "mail.fh-aachen.de:587")
    else ("", "")
  }

  /** The campus servers are chosen exactly for the accounts ending in
      "fh-aachen.de", gmail exactly for those ending in "gmail.com", and
      every other account gets no server. */
  lemma ServerBySuffix(usn: string)
    ensures ChooseServer(usn) == ("imap.gmail.com", "smtp.gmail.com:465") <==> EndsWith(usn, "gmail.com")
    ensures ChooseServer(usn) == ("mail.fh-aachen.de", "mail.fh-aachen.de:587") <==> EndsWith(usn, "fh-aachen.de")
    ensures ChooseServer(usn) == ("", "") <==> !EndsWith(usn, "gmail.com") && !EndsWith(usn, "fh-aachen.de")
  {
    LastCharsIsSuffixTest(usn, "gmail.com");
    LastCharsIsSuffixTest(usn, "fh-aachen.de");
    if EndsWith(usn, "gmail.com") {
      assert usn[|usn| - 1] == 'm';
    }
    if EndsWith(usn, "fh-aachen.de") {
      assert usn[|usn| - 1] == 'e';
    }
  }

  // ------------------------------------------------------------- verify

  /** What verify makes of a sender: a campus address counts; the
      automatic senders are dropped silently; anyone else is warned by
      mail and dropped. */
  datatype Verdict = Valid | Silent | Warned

  function Classify(eaddress: string): Verdict
  {
    if LastChars(eaddress, 12) == "fh-aachen.de" then Valid
    else if FirstChars(eaddress, 13) == "mailer-daemon" then Silent
    else if FirstChars(eaddress, 8) == "no-reply" then Silent
    else if FirstChars(eaddress, 7) == "noreply" then Silent
    else Warned
  }

  /** verify returns 1 exactly for the addresses ending in "fh-aachen.de";
      of the others, those starting with an automatic sender's name are
      dropped without a warning. */
  lemma ClassifyBySuffix(eaddress: string)
    ensures Classify(eaddress) == Valid <==> EndsWith(eaddress, "fh-aachen.de")
    ensures Classify(eaddress) == Silent
            <==> !EndsWith(eaddress, "fh-aachen.de")
                 && (StartsWith(eaddress, "mailer-daemon") || StartsWith(eaddress, "no-reply") || StartsWith(eaddress, "noreply"))
  {
    LastCharsIsSuffixTest(eaddress, "fh-aachen.de");
    FirstCharsIsPrefixTest(eaddress, "mailer-daemon");
    FirstCharsIsPrefixTest(eaddress, "no-reply");
    FirstCharsIsPrefixTest(eaddress, "noreply");
  }

  /** The suffix test comes first: an automatic sender on the campus
      domain counts as a student. */
  lemma CampusNoreplyIsValid(local: string)
    ensures Classify("noreply" + local + "fh-aachen.de") == Valid
  {
    var e := "noreply" + local + "fh-aachen.de";
    assert e[|e| - 12..] == "fh-aachen.de";
    ClassifyBySuffix(e);
  }

  // --------------------------------------------------- check_single_att

  /** Why check_single_att raises: a bare string among the walked parts
      has no content type, a counted part without a file name is sliced
      as None, and a single counted attachment with no application part
      walked leaves the saved payload unbound (UnboundLocalError). */
  datatype Crash = NotAMessage | NoName | NoPayload

  /** msg.walk(): the part itself, then the walks of its subparts in
      order when its payload is a list. */
  function Walk(p: Mail.Part): (r: seq<Mail.Part>)
    ensures |r| >= 1 && r[0] == p
    decreases p
  {
    match p
    case StrPart(_) => [p]
    case Msg(_, payload, _, _) =>
      match payload
      case Body(_) => [p]
      case Parts(items) => [p] + WalkAll(items)
  }

  function WalkAll(items: seq<Mail.Part>): seq<Mail.Part>
    decreases items
  {
    if items == [] then [] else Walk(items[0]) + WalkAll(items[1..])
  }

  function Slashes(s: string): nat
  {
    if s == [] then 0 else (if s[0] == '/' then 1 else 0) + Slashes(s[1..])
  }

  /** get_content_maintype: the lower-cased text before the "/"; a type
      without exactly one "/" counts as text/plain. */
  function MainType(ctype: string): string
  {
    match IndexOf(ctype, '/')
    case None => "text"
    case Some(k) => if Slashes(ctype) != 1 then "text" else Lower(ctype[..k])
  }

  /** The name the extension test sees: the first chunk decoded in its
      charset when that works; otherwise (no charset, a header that does
      not parse, a failing decode: all caught) the raw name. */
  function LegacyName(f: Mail.FileName): string
  {
    match f.decoding
    case Charset(_, Some(d)) => d
    case _ => f.raw
  }

  /** The extension test: the last three characters are "lsx" or "lsm",
      or the last six contain "xlsx", "xlsm" or "xls". */
  predicate IsExcelName(name: string)
  {
    var ext := LastChars(name, 3);
    var tail := LastChars(name, 6);
    || (ext == "lsx" && Contains(tail, "lsx"))
    || (ext == "lsm" && Contains(tail, "lsm"))
    || Contains(tail, "xlsx")
    || Contains(tail, "xlsm")
    || Contains(tail, "xls")
  }

  /** A part whose payload the walk keeps as the file to save. */
  predicate Application(p: Mail.Part)
  {
    p.Msg? && MainType(p.ctype) == "application"
  }

  /** Whether one walked part counts: containers, text parts and parts
      without a Content-Disposition are skipped. */
  function Counts(p: Mail.Part): Result<bool, Crash>
  {
    match p
    case StrPart(_) => Err(NotAMessage)
    case Msg(ctype, _, filename, disposition) =>
      var mt := MainType(ctype);
      if mt == "multipart" || mt == "text" || !disposition then Ok(false)
      else
        match filename
        case None => Err(NoName)
        case Some(f) => Ok(IsExcelName(LegacyName(f)))
  }

  /** What each walked part contributes, in walk order. */
  function Outcomes(parts: seq<Mail.Part>): (r: seq<Result<bool, Crash>>)
    ensures |r| == |parts|
  {
    seq(|parts|, i requires 0 <= i < |parts| => Counts(parts[i]))
  }

  /** cont_valids after the first n outcomes; the first raising part
      ends the walk. */
  function Tally(outs: seq<Result<bool, Crash>>, n: nat): Result<nat, Crash>
    requires n <= |outs|
  {
    if n == 0 then Ok(0)
    else
      match Tally(outs, n - 1)
      case Err(e) => Err(e)
      case Ok(count) =>
        match outs[n - 1]
        case Err(e) => Err(e)
        case Ok(b) => Ok(if b then count + 1 else count)
  }

  /** The number of counted parts among the first n outcomes. */
  function Valids(outs: seq<Result<bool, Crash>>, n: nat): nat
    requires n <= |outs|
  {
    if n == 0 then 0
    else Valids(outs, n - 1) + (if outs[n - 1] == Ok(true) then 1 else 0)
  }

  /** When nothing raises, the tally is the number of counted parts, and
      it raises exactly when some part does. */
  lemma {:induction false} TallyCounts(outs: seq<Result<bool, Crash>>, n: nat)
    requires n <= |outs|
    ensures Tally(outs, n).Ok? <==> forall i :: 0 <= i < n ==> outs[i].Ok?
    ensures Tally(outs, n).Ok? ==> Tally(outs, n).value == Valids(outs, n)
  {
    if n > 0 {
      TallyCounts(outs, n - 1);
    }
  }

  lemma {:induction false} TallyStaysFailed(outs: seq<Result<bool, Crash>>, m: nat, n: nat)
    requires m <= n <= |outs| && Tally(outs, m).Err?
    ensures Tally(outs, n) == Tally(outs, m)
  {
    if m < n {
      TallyStaysFailed(outs, m, n - 1);
    }
  }

  /** The counting loop of check_single_att over msg.walk(): each walked
      part is classified, and the count stops at the first raising one. */
  method CountValids(msg: Mail.Part) returns (r: Result<nat, Crash>)
    ensures r == Tally(Outcomes(Walk(msg)), |Walk(msg)|)
  {
    r := CountOutcomes(Outcomes(Walk(msg)));
  }

  method CountOutcomes(outs: seq<Result<bool, Crash>>) returns (r: Result<nat, Crash>)
    ensures r == Tally(outs, |outs|)
  {
    var count := 0;
    var i := 0;
    while i < |outs|
      invariant 0 <= i <= |outs|
      invariant Tally(outs, i) == Ok(count)
    {
      if outs[i].Err? {
        TallyStaysFailed(outs, i + 1, |outs|);
        return Err(outs[i].error);
      }
      if outs[i].value {
        count := count + 1;
      }
      i := i + 1;
    }
    r := Ok(count);
  }

  /** check_single_att's flag: 1 when exactly one part counts and the
      saved file passes check_exercise (excelOk), else 0. The file saved
      is the payload of the last application part walked; with none, the
      write raises. */
  method CheckSingleAtt(msg: Mail.Part, excelOk: bool) returns (r: Result<bool, Crash>)
    ensures (exists i :: 0 <= i < |Walk(msg)| && Counts(Walk(msg)[i]).Err?) ==> r.Err? && r.error != NoPayload
    ensures r == Err(NoPayload) <==>
              && (forall i :: 0 <= i < |Walk(msg)| ==> Counts(Walk(msg)[i]).Ok?)
              && Valids(Outcomes(Walk(msg)), |Walk(msg)|) == 1
              && (forall i :: 0 <= i < |Walk(msg)| ==> !Application(Walk(msg)[i]))
    ensures r.Ok? ==> (r.value <==> Valids(Outcomes(Walk(msg)), |Walk(msg)|) == 1 && excelOk)
  {
    var parts := Walk(msg);
    var outs := Outcomes(parts);
    var count := CountValids(msg);
    TallyCounts(outs, |parts|);
    TallyNeverNoPayload(outs, |parts|);
    assert forall i :: 0 <= i < |parts| ==> outs[i] == Counts(parts[i]);
    if count.Err? {
      return Err(count.error);
    }
    var bound := HasApplication(parts);
    if count.value == 1 && !bound {
      return Err(NoPayload);
    }
    r := Ok(count.value == 1 && excelOk);
  }

  /** Whether the walk binds the payload to save: some walked part is an
      application part. */
  method HasApplication(parts: seq<Mail.Part>) returns (bound: bool)
    ensures bound <==> exists j :: 0 <= j < |parts| && Application(parts[j])
  {
    bound := false;
    var i := 0;
    while i < |parts|
      invariant 0 <= i <= |parts|
      invariant bound <==> exists j :: 0 <= j < i && Application(parts[j])
    {
      bound := bound || Application(parts[i]);
      i := i + 1;
    }
  }

  /** The count only raises what a walked part raises. */
  lemma {:induction false} TallyNeverNoPayload(outs: seq<Result<bool, Crash>>, n: nat)
    requires n <= |outs|
    requires forall i :: 0 <= i < |outs| ==> outs[i] != Err(NoPayload)
    ensures Tally(outs, n) != Err(NoPayload)
  {
    if n > 0 {
      TallyNeverNoPayload(outs, n - 1);
    }
  }

  /** The last six characters of a name keep any shorter ending. */
  lemma TailKeepsEnding(name: string, q: string)
    requires |q| <= 6 && EndsWith(name, q)
    ensures EndsWith(LastChars(name, 6), q)
  {
    var tail := LastChars(name, 6);
    assert tail == name[|name| - |tail|..];
    assert tail[|tail| - |q|..] == name[|name| - |q|..];
  }

  /** Names ending in the Excel extensions are counted. */
  lemma ExcelEndingCounts(stem: string, ending: string)
    requires ending == ".xls" || ending == ".xlsx" || ending == ".xlsm"
    ensures IsExcelName(stem + ending)
  {
    var name := stem + ending;
    assert name[|name| - |ending|..] == ending;
    TailKeepsEnding(name, ending);
    assert ending[1..4] == "xls";
    ContainsAt(ending, "xls", 1);
    ContainsViaSuffix(LastChars(name, 6), ending, "xls");
  }

  /** A name without an "l" is never counted. */
  lemma NoLetterLNotCounted(name: string)
    requires 'l' !in name
    ensures !IsExcelName(name)
  {
    var tail := LastChars(name, 6);
    assert 'l' !in tail;
    if Contains(tail, "xls") { ContainsHasChar(tail, "xls", 1); }
    if Contains(tail, "xlsx") { ContainsHasChar(tail, "xlsx", 1); }
    if Contains(tail, "xlsm") { ContainsHasChar(tail, "xlsm", 1); }
    if Contains(tail, "lsx") { ContainsHasChar(tail, "lsx", 0); }
    if Contains(tail, "lsm") { ContainsHasChar(tail, "lsm", 0); }
  }

  /** A message whose walk reaches no attachment part is not accepted. */
  lemma PlainMessageHasNoValid(ctype: string, text: string)
    ensures Tally(Outcomes(Walk(Mail.Msg(ctype, Mail.Body(text), None, false))), 1) == Ok(0)
  {
    var p := Mail.Msg(ctype, Mail.Body(text), None, false);
    assert Walk(p) == [p];
  }

  /** A lone image attached under an Excel name (any stem followed by
      ".xlsx") counts once, but no application part binds the payload,
      so saving it raises. */
  lemma ImageAttachmentLeavesNoPayload(body: string, stem: string)
    ensures var p := ImageAsExcel(body, stem);
            && (forall i :: 0 <= i < |Walk(p)| ==> Counts(Walk(p)[i]).Ok?)
            && Valids(Outcomes(Walk(p)), |Walk(p)|) == 1
            && (forall i :: 0 <= i < |Walk(p)| ==> !Application(Walk(p)[i]))
  {
    var p := ImageAsExcel(body, stem);
    ImageAsExcelCounts(body, stem);
    assert Walk(p) == [p];
    var o := Outcomes(Walk(p));
    assert o[0] == Ok(true);
    assert Valids(o, 1) == Valids(o, 0) + 1;
  }

  function ImageAsExcel(body: string, stem: string): Mail.Part
  {
    Mail.Msg("image/png", Mail.Body(body), Some(Mail.FileName(stem + ".xlsx", Mail.Unparsable)), true)
  }

  lemma ImageAsExcelCounts(body: string, stem: string)
    ensures Counts(ImageAsExcel(body, stem)) == Ok(true) && !Application(ImageAsExcel(body, stem))
  {
    var name := stem + ".xlsx";
    ImageMainType();
    assert |"image"| != |"multipart"| && |"image"| != |"text"| && |"image"| != |"application"|;
    AttachmentCounts("image/png", body, Mail.FileName(name, Mail.Unparsable));
    ExcelEndingCounts(stem, ".xlsx");
  }

  /** An attachment of a non-text, non-multipart type counts by its name. */
  lemma AttachmentCounts(ctype: string, body: string, f: Mail.FileName)
    requires MainType(ctype) != "multipart" && MainType(ctype) != "text"
    ensures Counts(Mail.Msg(ctype, Mail.Body(body), Some(f), true)) == Ok(IsExcelName(LegacyName(f)))
  {
  }

  lemma ImageMainType()
    ensures MainType("image/png") == "image"
  {
    MainTypeOfPair("image", "png");
    assert "image" + "/" + "png" == "image/png";
    assert Lower("image") == "image";
  }

  /** A type "a/b" with no other slash has main type a, lower-cased. */
  lemma MainTypeOfPair(a: string, b: string)
    requires '/' !in a && '/' !in b
    ensures MainType(a + "/" + b) == Lower(a)
  {
    var t := a + "/" + b;
    assert t[|a|] == '/' && t[..|a|] == a;
    SlashesOfPair(a, b);
  }

  lemma {:induction false} SlashesOfPair(a: string, b: string)
    requires '/' !in a && '/' !in b
    ensures Slashes(a + "/" + b) == 1
  {
    if a == [] {
      assert ([] + "/" + b)[1..] == b;
      NoSlashes(b);
    } else {
      assert (a + "/" + b)[1..] == a[1..] + "/" + b;
      SlashesOfPair(a[1..], b);
    }
  }

  lemma {:induction false} NoSlashes(s: string)
    requires '/' !in s
    ensures Slashes(s) == 0
  {
    if s != [] {
      assert s[0] in s;
      NoSlashes(s[1..]);
    }
  }
}
