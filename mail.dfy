/** The routing decisions of the current mail front end: which part of a
    message is the submitted workbook (a recursive search through
    multipart/mixed containers, section 5.1.3 of RFC 2046, with file names
    given as encoded-words, section 2 of RFC 2047), and what becomes of a
    message: ignored, forwarded to the administrator, answered with one of
    the three complaints, or accepted for a registered codename. */
module Mail {
  import opened Wrappers
  import opened Text

  const ExcelMime := "application/vnd.openxmlformats-officedocument.spreadsheetml.sheet"
  const OctetStream := "application/octet-stream"
  const Mixed := "multipart/mixed"

  /** What the header decoder makes of a file name: it fails to parse
      (HeaderParseError), or its first chunk carries no charset (str() of
      that chunk is `first`), or it carries one and decodes in it (or not:
      `decoded` is None for an unknown charset or undecodable bytes). */
  datatype Decoding =
    | Unparsable
    | Unlabelled(first: string)
    | Charset(first: string, decoded: Option<string>)

  /** The filename parameter of a part: its raw text and its decoding. */
  datatype FileName = FileName(raw: string, decoding: Decoding)

  /** A message part: a bare string inside a payload, or a message with
      its content type, its payload (a list of parts or a body), its
      filename parameter, if any, and whether it has a
      Content-Disposition header. */
  datatype Part =
    | StrPart(s: string)
    | Msg(ctype: string, payload: Payload, filename: Option<FileName>, disposition: bool)

  datatype Payload = Parts(items: seq<Part>) | Body(text: string)

  /** The exceptions of name decoding that nothing catches. */
  datatype Failure = NoFileName | BadCharset

  /** _encode_name: the decoded first chunk; "" when the header cannot be
      parsed; a missing name (TypeError) and a failing charset decode are
      not caught. */
  function EncodeName(x: Option<FileName>): (r: Result<string, Failure>)
    ensures r.Err? <==> x.None? || (x.value.decoding.Charset? && x.value.decoding.decoded.None?)
    ensures x.Some? && x.value.decoding.Unparsable? ==> r == Ok("")
  {
    match x
    case None => Err(NoFileName)
    case Some(FileName(_, d)) =>
      match d
      case Unparsable => Ok("")
      case Unlabelled(first) => Ok(first)
      case Charset(_, None) => Err(BadCharset)
      case Charset(_, Some(text)) => Ok(text)
  }

  /** A leaf that _filter reports as a workbook: an xlsx or octet-stream
      part whose decoded name, lower-cased, ends with ".xlsx". */
  predicate IsWorkbook(p: Part)
  {
    && p.Msg?
    && (p.ctype == ExcelMime || p.ctype == OctetStream)
    && EncodeName(p.filename).Ok?
    && EndsWith(Lower(EncodeName(p.filename).value), ".xlsx")
  }

  /** _filter: the workbook found in p, searching multipart/mixed
      containers depth first, or None. */
  function Filter(p: Part): Result<Option<Part>, Failure>
    decreases p
  {
    match p
    case StrPart(_) => Ok(None)
    case Msg(ctype, payload, filename, _) =>
      if ctype == Mixed then
        if payload.Body? then Ok(None) else FirstFile(payload.items)
      else if ctype != ExcelMime && ctype != OctetStream then Ok(None)
      else
        match EncodeName(filename)
        case Err(e) => Err(e)
        case Ok(name) => Ok(if EndsWith(Lower(name), ".xlsx") then Some(p) else None)
  }

  /** The loop of _filter over a container's parts: the first workbook
      found; an exception in an earlier part ends the search. */
  function FirstFile(items: seq<Part>): Result<Option<Part>, Failure>
    decreases items
  {
    if items == [] then Ok(None)
    else
      match Filter(items[0])
      case Err(e) => Err(e)
      case Ok(Some(f)) => Ok(Some(f))
      case Ok(None) => FirstFile(items[1..])
  }

  /** Whatever _filter finds is a workbook leaf. */
  lemma {:induction false} FilterFindsWorkbooks(p: Part)
    ensures Filter(p).Ok? && Filter(p).value.Some? ==> IsWorkbook(Filter(p).value.value)
    decreases p
  {
    if p.Msg? && p.ctype == Mixed && p.payload.Parts? {
      FirstFileFindsWorkbooks(p.payload.items);
    }
  }

  lemma {:induction false} FirstFileFindsWorkbooks(items: seq<Part>)
    ensures FirstFile(items).Ok? && FirstFile(items).value.Some? ==> IsWorkbook(FirstFile(items).value.value)
    decreases items
  {
    if items != [] {
      FilterFindsWorkbooks(items[0]);
      FirstFileFindsWorkbooks(items[1..]);
    }
  }

  /** A part that is not a container is reported exactly when it is a
      workbook; a bare string never is. */
  lemma LeafFilter(p: Part)
    requires !(p.Msg? && p.ctype == Mixed)
    ensures Filter(p).Ok? ==> (Filter(p) == Ok(Some(p)) <==> IsWorkbook(p))
    ensures Filter(p).Ok? ==> Filter(p) == Ok(None) || Filter(p) == Ok(Some(p))
    ensures p.StrPart? ==> Filter(p) == Ok(None)
  {
  }

  /** The parts filter_files iterates over: the list of a multipart
      payload, or the characters of a body. */
  function TopItems(payload: Payload): (r: seq<Part>)
    ensures payload.Parts? ==> r == payload.items
    ensures payload.Body? ==> |r| == |payload.text| && forall i :: 0 <= i < |r| ==> r[i] == StrPart([payload.text[i]])
  {
    match payload
    case Parts(items) => items
    case Body(text) => seq(|text|, i requires 0 <= i < |text| => StrPart([text[i]]))
  }

  /** What filter_files keeps from the first n parts: at most one workbook
      per part, in order. */
  function FilesOf(items: seq<Part>, n: nat): Result<seq<Part>, Failure>
    requires n <= |items|
  {
    if n == 0 then Ok([])
    else
      match FilesOf(items, n - 1)
      case Err(e) => Err(e)
      case Ok(files) =>
        match Filter(items[n - 1])
        case Err(e) => Err(e)
        case Ok(None) => Ok(files)
        case Ok(Some(f)) => Ok(files + [f])
  }

  /** Everything filter_files keeps is a workbook, and there are at most
      as many as parts. */
  lemma {:induction false} FilesAreWorkbooks(items: seq<Part>, n: nat)
    requires n <= |items|
    ensures FilesOf(items, n).Ok? ==> |FilesOf(items, n).value| <= n
    ensures FilesOf(items, n).Ok? ==> forall i :: 0 <= i < |FilesOf(items, n).value| ==> IsWorkbook(FilesOf(items, n).value[i])
  {
    if n > 0 {
      FilesAreWorkbooks(items, n - 1);
      FilterFindsWorkbooks(items[n - 1]);
    }
  }

  /** A plain body holds no workbook. */
  lemma {:induction false} BodyHasNoFiles(text: string, n: nat)
    requires n <= |text|
    ensures FilesOf(TopItems(Body(text)), n) == Ok([])
  {
    if n > 0 {
      BodyHasNoFiles(text, n - 1);
      assert TopItems(Body(text))[n - 1] == StrPart([text[n - 1]]);
    }
  }

  /** An exception in one part ends filter_files. */
  lemma {:induction false} FilesOfStaysFailed(items: seq<Part>, m: nat, n: nat)
    requires m <= n <= |items| && FilesOf(items, m).Err?
    ensures FilesOf(items, n) == FilesOf(items, m)
  {
    if m < n {
      FilesOfStaysFailed(items, m, n - 1);
    }
  }

  /** filter_files: the workbooks among the top-level parts of a message,
      one per part at most, in order. */
  method FilterFiles(payload: Payload) returns (r: Result<seq<Part>, Failure>)
    ensures r == FilesOf(TopItems(payload), |TopItems(payload)|)
  {
    var items := TopItems(payload);
    var files := [];
    var i := 0;
    while i < |items|
      invariant 0 <= i <= |items|
      invariant FilesOf(items, i) == Ok(files)
    {
      var found := Filter(items[i]);
      if found.Err? {
        FilesOfStaysFailed(items, i + 1, |items|);
        return Err(found.error);
      }
      if found.value.Some? {
        files := files + [found.value.value];
      }
      i := i + 1;
    }
    r := Ok(files);
  }

  // ------------------------------------------------------------ routing

  /** The configuration the inbox check reads: the bot's own account, the
      accepted domains, whether an administrator contact is set, and the
      registered codenames. */
  datatype Config = Config(user: string, domains: seq<string>, admin: bool, codenames: set<string>)

  /** An unseen message: the address part of From, the subject, if any,
      and the payload. */
  datatype Message = Message(sender: string, subject: Option<string>, payload: Payload)

  datatype Route =
    | Ignored
    | Forwarded
    | InvalidAttachment
    | UnknownAttachment(name: string)
    | WrongAddress
    | Accepted(codename: string, file: Part)

  /** Senders that never get an answer: automatic ones and the bot itself. */
  predicate Ignorable(sender: string, user: string)
  {
    Contains(sender, "noreply") || Contains(sender, "no-reply") || Contains(sender, "mailer-daemon") || sender == user
  }

  predicate FromDomain(sender: string, domains: seq<string>)
  {
    exists i :: 0 <= i < |domains| && EndsWith(sender, "@" + domains[i])
  }

  predicate AsksForHelp(subject: Option<string>)
  {
    subject.Some? && subject.value != [] && Contains(Lower(subject.value), "problem")
  }

  /** The codename a file name stands for: lower-cased, every ".xlsx"
      removed, stripped. */
  function StrippedName(name: string): string
  {
    Strip(RemoveAll(Lower(name), ".xlsx"))
  }

  /** What check_inbox does with one message. */
  function RouteOf(cfg: Config, m: Message): Result<Route, Failure>
  {
    if Ignorable(m.sender, cfg.user) then Ok(Ignored)
    else if !FromDomain(m.sender, cfg.domains) then Ok(WrongAddress)
    else if AsksForHelp(m.subject) && cfg.admin then Ok(Forwarded)
    else
      var items := TopItems(m.payload);
      match FilesOf(items, |items|)
      case Err(e) => Err(e)
      case Ok(files) =>
        if |files| != 1 then Ok(InvalidAttachment)
        else
          FilesAreWorkbooks(items, |items|);
          var name := EncodeName(files[0].filename).value;
          if StrippedName(name) in cfg.codenames then Ok(Accepted(StrippedName(name), files[0]))
          else Ok(UnknownAttachment(name))
  }

  /** One accepted submission: the student's address and the codename of
      the subject. */
  datatype Entry = Entry(student: string, codename: string)

  /** The corr_files check_inbox collects from the first n messages,
      where saved says whether downloading each one's attachment
      succeeded; an exception ends the check. */
  function Collected(cfg: Config, msgs: seq<Message>, saved: seq<bool>, n: nat): Result<seq<Entry>, Failure>
    requires n <= |msgs| == |saved|
  {
    if n == 0 then Ok([])
    else
      match Collected(cfg, msgs, saved, n - 1)
      case Err(e) => Err(e)
      case Ok(entries) =>
        match RouteOf(cfg, msgs[n - 1])
        case Err(e) => Err(e)
        case Ok(route) =>
          if route.Accepted? && saved[n - 1] then Ok(entries + [Entry(msgs[n - 1].sender, route.codename)])
          else Ok(entries)
  }

  /** An exception in one message ends check_inbox. */
  lemma {:induction false} CollectedStaysFailed(cfg: Config, msgs: seq<Message>, saved: seq<bool>, m: nat, n: nat)
    requires m <= n <= |msgs| == |saved| && Collected(cfg, msgs, saved, m).Err?
    ensures Collected(cfg, msgs, saved, n) == Collected(cfg, msgs, saved, m)
  {
    if m < n {
      CollectedStaysFailed(cfg, msgs, saved, m, n - 1);
    }
  }

  /** check_inbox over the unseen messages. */
  method CheckInbox(cfg: Config, msgs: seq<Message>, saved: seq<bool>) returns (r: Result<seq<Entry>, Failure>)
    requires |msgs| == |saved|
    ensures r == Collected(cfg, msgs, saved, |msgs|)
  {
    var corrFiles := [];
    var i := 0;
    while i < |msgs|
      invariant 0 <= i <= |msgs|
      invariant Collected(cfg, msgs, saved, i) == Ok(corrFiles)
    {
      var route := Dispatch(cfg, msgs[i]);
      if route.Err? {
        CollectedStaysFailed(cfg, msgs, saved, i + 1, |msgs|);
        return Err(route.error);
      }
      if route.value.Accepted? && saved[i] {
        corrFiles := corrFiles + [Entry(msgs[i].sender, route.value.codename)];
      }
      i := i + 1;
    }
    r := Ok(corrFiles);
  }

  /** The body of the message loop, in the source's order of checks:
      the imperative counterpart of RouteOf, which specifies it. */
  method Dispatch(cfg: Config, m: Message) returns (r: Result<Route, Failure>)
    ensures r == RouteOf(cfg, m)
  {
    if Ignorable(m.sender, cfg.user) {
      return Ok(Ignored);
    }
    if !FromDomain(m.sender, cfg.domains) {
      return Ok(WrongAddress);
    }
    if AsksForHelp(m.subject) && cfg.admin {
      return Ok(Forwarded);
    }
    var possible := FilterFiles(m.payload);
    if possible.Err? {
      return Err(possible.error);
    }
    if |possible.value| != 1 {
      return Ok(InvalidAttachment);
    }
    FilesAreWorkbooks(TopItems(m.payload), |TopItems(m.payload)|);
    var name := EncodeName(possible.value[0].filename).value;
    var stripped := StrippedName(name);
    if stripped in cfg.codenames {
      r := Ok(Accepted(stripped, possible.value[0]));
    } else {
      r := Ok(UnknownAttachment(name));
    }
  }

  // ------------------------------------------------------------- lemmas

  /** Only a non-automatic sender of an accepted domain, who did not ask
      an administrator for help, is ever accepted, for a registered
      codename and a workbook leaf. */
  lemma AcceptedIsLegitimate(cfg: Config, m: Message)
    requires RouteOf(cfg, m).Ok? && RouteOf(cfg, m).value.Accepted?
    ensures !Ignorable(m.sender, cfg.user) && FromDomain(m.sender, cfg.domains)
    ensures !(AsksForHelp(m.subject) && cfg.admin)
    ensures RouteOf(cfg, m).value.codename in cfg.codenames
    ensures IsWorkbook(RouteOf(cfg, m).value.file)
  {
    var items := TopItems(m.payload);
    FilesAreWorkbooks(items, |items|);
  }

  /** An automatic sender is ignored whatever it sends; a sender outside
      the accepted domains gets the wrong-address answer. */
  lemma SenderClassification(cfg: Config, m: Message)
    ensures Ignorable(m.sender, cfg.user) ==> RouteOf(cfg, m) == Ok(Ignored)
    ensures !Ignorable(m.sender, cfg.user) && !FromDomain(m.sender, cfg.domains) ==> RouteOf(cfg, m) == Ok(WrongAddress)
    ensures RouteOf(cfg, m) == Ok(WrongAddress) ==> !FromDomain(m.sender, cfg.domains)
  {
  }

  /** A message with a plain body has no attachment to grade. */
  lemma PlainBodyIsInvalid(cfg: Config, m: Message)
    requires m.payload.Body?
    requires !Ignorable(m.sender, cfg.user) && FromDomain(m.sender, cfg.domains) && !(AsksForHelp(m.subject) && cfg.admin)
    ensures RouteOf(cfg, m) == Ok(InvalidAttachment)
  {
    BodyHasNoFiles(m.payload.text, |m.payload.text|);
  }

  /** A codename, lower-case, stripped and free of ".xlsx", is what
      remains of the file name `codename + ".xlsx"`, whatever the case of
      its letters; that name passes as a workbook name. */
  lemma CodenameOfFile(codename: string)
    requires Lower(codename) == codename && IsStripped(codename) && !Contains(codename, ".xlsx")
    ensures StrippedName(codename + ".xlsx") == codename
    ensures EndsWith(Lower(codename + ".xlsx"), ".xlsx")
  {
    LowerConcat(codename, ".xlsx");
    assert Lower(".xlsx") == ".xlsx";
    XlsxBorderFree();
    RemoveAllAppended(codename, ".xlsx");
    StripOfStripped(codename);
  }

  /** A file named after a registered codename is accepted for it. */
  lemma CodenameFileIsAccepted(cfg: Config, sender: string, subject: Option<string>, codename: string, raw: string)
    requires !Ignorable(sender, cfg.user) && FromDomain(sender, cfg.domains) && !(AsksForHelp(subject) && cfg.admin)
    requires codename in cfg.codenames
    requires Lower(codename) == codename && IsStripped(codename) && !Contains(codename, ".xlsx")
    ensures var file := Msg(ExcelMime, Body(""), Some(FileName(raw, Unlabelled(codename + ".xlsx"))), true);
            RouteOf(cfg, Message(sender, subject, Parts([file]))) == Ok(Accepted(codename, file))
  {
    var file := Msg(ExcelMime, Body(""), Some(FileName(raw, Unlabelled(codename + ".xlsx"))), true);
    CodenameOfFile(codename);
    assert Filter(file) == Ok(Some(file));
    var items := [file];
    assert items[0] == file && FilesOf(items, 0) == Ok([]);
    assert FilesOf(items, 1) == Ok([] + [file]);
    assert [] + [file] == [file];
  }
}
