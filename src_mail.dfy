/** The routing of the older mail front end and its server choice. It
    differs from the current one in four ways: a "problem" subject is
    forwarded before the sender is looked at, the address only has to end
    with "fh-aachen.de", the candidates are the top-level parts of exactly
    the xlsx type, and the raw file name is matched against
    `codename + ".xlsx"`. */
module SrcMail {
  import opened Wrappers
  import opened Text
  import Mail

  /** Exceptions nothing catches: a candidate without a file name, and a
      name with "=?" whose first chunk does not decode. */
  datatype Raised = NoName | NotDecodable

  const Campus := "fh-aachen.de"

  datatype Route =
    | Forwarded
    | Ignored
    | InvalidAttachment
    | UnknownAttachment(name: string)
    | WrongAddress
    | Accepted(codename: string, file: Mail.Part)

  /** The candidates: the top-level parts that are messages of exactly the
      xlsx type, in order. */
  function Candidates(items: seq<Mail.Part>): (r: seq<Mail.Part>)
    ensures |r| <= |items|
    ensures forall i :: 0 <= i < |r| ==> r[i].Msg? && r[i].ctype == Mail.ExcelMime
  {
    if items == [] then []
    else
      var n := |items| - 1;
      Candidates(items[..n]) + (if items[n].Msg? && items[n].ctype == Mail.ExcelMime then [items[n]] else [])
  }

  /** The name quoted in the unknown-attachment answer: the raw name, or,
      when it holds "=?", its first chunk decoded; a header that does not
      parse keeps the raw name, while a chunk without a charset or with
      one that fails raises. */
  function QuotedName(f: Mail.FileName): Result<string, Raised>
  {
    if !Contains(f.raw, "=?") then Ok(f.raw)
    else
      match f.decoding
      case Unparsable => Ok(f.raw)
      case Unlabelled(_) => Err(NotDecodable)
      case Charset(_, None) => Err(NotDecodable)
      case Charset(_, Some(d)) => Ok(d)
  }

  /** The codename whose `codename + ".xlsx"` is the stripped, lower-cased
      name, if one is registered. */
  function Match(stripped: string, codenames: set<string>): (r: Option<string>)
    ensures r.Some? ==> r.value in codenames && r.value + ".xlsx" == stripped
    ensures r.None? ==> forall c :: c in codenames ==> c + ".xlsx" != stripped
  {
    HasSuffixIsEndsWith(stripped, ".xlsx");
    if HasSuffix(stripped, ".xlsx") && stripped[..|stripped| - 5] in codenames then
      assert stripped[..|stripped| - 5] + ".xlsx" == stripped;
      Some(stripped[..|stripped| - 5])
    else None
  }

  /** What check_inbox does with the attachments of a message from a
      campus sender: only the attachment answers can come out of it. */
  function AttachmentRoute(codenames: set<string>, payload: Mail.Payload): (r: Result<Route, Raised>)
    ensures r.Ok? ==> r.value.InvalidAttachment? || r.value.Accepted? || r.value.UnknownAttachment?
  {
    var possible := Candidates(Mail.TopItems(payload));
    if |possible| != 1 then Ok(InvalidAttachment)
    else
      match possible[0].filename
      case None => Err(NoName)
      case Some(f) =>
        match Match(Strip(Lower(f.raw)), codenames)
        case Some(c) => Ok(Accepted(c, possible[0]))
        case None =>
          match QuotedName(f)
          case Err(e) => Err(e)
          case Ok(name) => Ok(UnknownAttachment(name))
  }

  /** What check_inbox does with one message. */
  function RouteOf(cfg: Mail.Config, m: Mail.Message): Result<Route, Raised>
  {
    if Mail.AsksForHelp(m.subject) && cfg.admin then Ok(Forwarded)
    else if Mail.Ignorable(m.sender, cfg.user) then Ok(Ignored)
    else if !HasSuffix(m.sender, Campus) then Ok(WrongAddress)
    else AttachmentRoute(cfg.codenames, m.payload)
  }

  /** The route of each message, in order. */
  function Routes(cfg: Mail.Config, msgs: seq<Mail.Message>): (r: seq<Result<Route, Raised>>)
    ensures |r| == |msgs|
  {
    seq(|msgs|, i requires 0 <= i < |msgs| => RouteOf(cfg, msgs[i]))
  }

  /** The corr_files gathered from the first n messages given their
      routes: an accepted message whose download succeeded (saved) adds
      its sender and codename; the first exception ends the loop. */
  function Gather(msgs: seq<Mail.Message>, saved: seq<bool>, routes: seq<Result<Route, Raised>>, n: nat): Result<seq<Mail.Entry>, Raised>
    requires n <= |msgs| == |saved| == |routes|
  {
    if n == 0 then Ok([])
    else
      match Gather(msgs, saved, routes, n - 1)
      case Err(e) => Err(e)
      case Ok(entries) =>
        match routes[n - 1]
        case Err(e) => Err(e)
        case Ok(route) =>
          if route.Accepted? && saved[n - 1] then Ok(entries + [Mail.Entry(msgs[n - 1].sender, route.codename)])
          else Ok(entries)
  }

  /** The corr_files check_inbox collects from its messages. */
  function Collected(cfg: Mail.Config, msgs: seq<Mail.Message>, saved: seq<bool>): Result<seq<Mail.Entry>, Raised>
    requires |msgs| == |saved|
  {
    Gather(msgs, saved, Routes(cfg, msgs), |msgs|)
  }

  lemma {:induction false} GatherStaysFailed(msgs: seq<Mail.Message>, saved: seq<bool>, routes: seq<Result<Route, Raised>>, m: nat, n: nat)
    requires m <= n <= |msgs| == |saved| == |routes| && Gather(msgs, saved, routes, m).Err?
    ensures Gather(msgs, saved, routes, n) == Gather(msgs, saved, routes, m)
  {
    if m < n {
      GatherStaysFailed(msgs, saved, routes, m, n - 1);
    }
  }

  /** Every gathered entry comes from an accepted message whose download
      succeeded: its student is that message's sender and its codename
      the one the route accepted. */
  lemma {:induction false} GatheredAreAccepted(msgs: seq<Mail.Message>, saved: seq<bool>, routes: seq<Result<Route, Raised>>, n: nat)
    requires n <= |msgs| == |saved| == |routes| && Gather(msgs, saved, routes, n).Ok?
    ensures forall e :: e in Gather(msgs, saved, routes, n).value ==>
              exists k :: 0 <= k < n && saved[k] && routes[k].Ok? && routes[k].value.Accepted?
                          && e == Mail.Entry(msgs[k].sender, routes[k].value.codename)
  {
    if n > 0 {
      GatheredAreAccepted(msgs, saved, routes, n - 1);
    }
  }

  /** check_inbox over the unseen messages: the route of each message is
      decided, then the loop gathers the accepted ones. */
  method CheckInbox(cfg: Mail.Config, msgs: seq<Mail.Message>, saved: seq<bool>) returns (r: Result<seq<Mail.Entry>, Raised>)
    requires |msgs| == |saved|
    ensures r == Collected(cfg, msgs, saved)
  {
    r := GatherRoutes(msgs, saved, Routes(cfg, msgs));
  }

  method GatherRoutes(msgs: seq<Mail.Message>, saved: seq<bool>, routes: seq<Result<Route, Raised>>) returns (r: Result<seq<Mail.Entry>, Raised>)
    requires |msgs| == |saved| == |routes|
    ensures r == Gather(msgs, saved, routes, |msgs|)
  {
    var corrFiles := [];
    var i := 0;
    while i < |msgs|
      invariant 0 <= i <= |msgs|
      invariant Gather(msgs, saved, routes, i) == Ok(corrFiles)
    {
      if routes[i].Err? {
        GatherStaysFailed(msgs, saved, routes, i + 1, |msgs|);
        return Err(routes[i].error);
      }
      if routes[i].value.Accepted? && saved[i] {
        corrFiles := corrFiles + [Mail.Entry(msgs[i].sender, routes[i].value.codename)];
      }
      i := i + 1;
    }
    r := Ok(corrFiles);
  }

  /** A "problem" subject reaches the administrator from any sender, the
      automatic ones included. */
  lemma ProblemForwardedFirst(cfg: Mail.Config, m: Mail.Message)
    requires Mail.AsksForHelp(m.subject) && cfg.admin
    ensures RouteOf(cfg, m) == Ok(Forwarded)
  {
  }

  /** Any non-automatic address ending in "fh-aachen.de" passes the sender
      check, with or without an "@" before the domain; every other one is
      answered with the wrong-address mail. */
  lemma CampusSender(cfg: Mail.Config, m: Mail.Message)
    requires !(Mail.AsksForHelp(m.subject) && cfg.admin) && !Mail.Ignorable(m.sender, cfg.user)
    ensures RouteOf(cfg, m) == Ok(WrongAddress) <==> !EndsWith(m.sender, Campus)
  {
    HasSuffixIsEndsWith(m.sender, Campus);
  }

  /** An accepted file is the one candidate of the message, and its name,
      lower-cased and stripped, is the codename followed by ".xlsx". */
  lemma AcceptedMatchesCodename(cfg: Mail.Config, m: Mail.Message)
    requires RouteOf(cfg, m).Ok? && RouteOf(cfg, m).value.Accepted?
    ensures var r := RouteOf(cfg, m).value;
            && Candidates(Mail.TopItems(m.payload)) == [r.file]
            && r.codename in cfg.codenames
            && r.file.filename.Some? && r.codename + ".xlsx" == Strip(Lower(r.file.filename.value.raw))
            && EndsWith(m.sender, Campus) && !Mail.Ignorable(m.sender, cfg.user)
  {
    HasSuffixIsEndsWith(m.sender, Campus);
  }

  /** The stripped, lower-cased name of a registered codename's file
      matches that codename. */
  lemma MatchOfCodename(codename: string, codenames: set<string>)
    requires codename in codenames && Lower(codename) == codename && IsStripped(codename)
    ensures Match(Strip(Lower(codename + ".xlsx")), codenames) == Some(codename)
  {
    var name := codename + ".xlsx";
    LowerConcat(codename, ".xlsx");
    assert Lower(".xlsx") == ".xlsx";
    assert IsStripped(name);
    StripOfStripped(name);
    assert name[..|name| - 5] == codename;
  }

  /** A file of the xlsx type whose raw name is a registered codename with
      ".xlsx" is accepted for that codename. */
  lemma CodenameFileIsAccepted(cfg: Mail.Config, sender: string, subject: Option<string>, codename: string, d: Mail.Decoding)
    requires !(Mail.AsksForHelp(subject) && cfg.admin) && !Mail.Ignorable(sender, cfg.user) && EndsWith(sender, Campus)
    requires codename in cfg.codenames && Lower(codename) == codename && IsStripped(codename)
    ensures var file := Mail.Msg(Mail.ExcelMime, Mail.Body(""), Some(Mail.FileName(codename + ".xlsx", d)), true);
            RouteOf(cfg, Mail.Message(sender, subject, Mail.Parts([file]))) == Ok(Accepted(codename, file))
  {
    var file := Mail.Msg(Mail.ExcelMime, Mail.Body(""), Some(Mail.FileName(codename + ".xlsx", d)), true);
    MatchOfCodename(codename, cfg.codenames);
    HasSuffixIsEndsWith(sender, Campus);
    var items := [file];
    assert items[..0] == [];
    assert Candidates(items) == [file];
  }

  // ------------------------------------------------------ choose_server

  /** usn.split('@')[-1]: the text after the last "@", or all of it. */
  function Domain(usn: string): (r: string)
    ensures '@' !in r
    ensures EndsWith(usn, r)
  {
    if usn == [] then []
    else if usn[|usn| - 1] == '@' then []
    else
      var d := Domain(usn[..|usn| - 1]);
      assert usn[..|usn| - 1][|usn| - 1 - |d|..] == d;
      assert usn[|usn| - |d| - 1..] == usn[..|usn| - 1][|usn| - 1 - |d|..] + [usn[|usn| - 1]];
      d + [usn[|usn| - 1]]
  }

  /** The IMAP and SMTP servers for a mail account, by domain; an unknown
      domain raises. */
  function ChooseServer(usn: string): (r: Option<(string, string)>)
  {
    var domain := Domain(usn);
    if domain == "gmail.com" then Some(("imap.gmail.com", "smtp.gmail.com:465"))
    else if domain == "ad.fh-aachen.de" then Some(("mail.fh-aachen.de", "mail.fh-aachen.de:587"))
    else if domain == "0x0f.net" then Some(("mail.0x0f.net", "mail.0x0f.net:465"))
    else None
  }

  /** The domain of `local@domain` is domain whatever the local part. */
  lemma {:induction false} DomainOfAddress(local: string, domain: string)
    requires '@' !in domain
    ensures Domain(local + "@" + domain) == domain
    decreases |domain|
  {
    var usn := local + "@" + domain;
    if domain == [] {
      assert usn[|usn| - 1] == '@';
    } else {
      var n := |domain| - 1;
      assert usn[..|usn| - 1] == local + "@" + domain[..n];
      DomainOfAddress(local, domain[..n]);
      assert domain[..n] + [domain[n]] == domain;
    }
  }

  /** The three known domains get their servers; the plain campus domain,
      without the "ad." prefix, raises. */
  /** The servers of each supported domain, as a table. */
  const ServerTable: map<string, (string, string)> := map[
    "gmail.com" := ("imap.gmail.com", "smtp.gmail.com:465"),
    "ad.fh-aachen.de" := ("mail.fh-aachen.de", "mail.fh-aachen.de:587"),
    "0x0f.net" := ("mail.0x0f.net", "mail.0x0f.net:465")]

  /** For every address, the servers are the table's entry for its
      domain, and a domain outside the table raises; for local@domain
      that domain is the one looked up. */
  lemma ChooseServerIsTable(usn: string, local: string, domain: string)
    ensures ChooseServer(usn) == (if Domain(usn) in ServerTable then Some(ServerTable[Domain(usn)]) else None)
    ensures '@' !in domain ==>
              ChooseServer(local + "@" + domain) == (if domain in ServerTable then Some(ServerTable[domain]) else None)
  {
    if '@' !in domain {
      DomainOfAddress(local, domain);
    }
  }

  lemma PlainCampusDomainRaises(local: string)
    ensures ChooseServer(local + "@" + Campus) == None
  {
    DomainOfAddress(local, Campus);
  }
}
