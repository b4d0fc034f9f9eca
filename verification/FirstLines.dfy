/** The first line of a message: a status line or a request line. */
module FirstLines {
  import opened Ascii
  import opened Numerals
  import opened ParserTypes
  import opened ParserStep
  import opened ParserMachine
  import opened ParserWords
  import opened MethodNames
  import opened HeaderLines
  import opened HttpEncoder
  import opened RequestLine
  import opened StatusLine

  datatype FirstLine =
    | Reply(minor: nat, status: nat, reason: string)
    | Ask(minor: nat, verb: Method, path: string, query: string, fragment: string)

  /** The target of a request, and the reason phrase of a response. */
  function TargetOf(f: FirstLine): string { if f.Ask? then U.Printed(f.path, f.query, f.fragment) else "" }

  function ReasonOf(f: FirstLine): string { if f.Reply? then f.reason else "" }

  /** A line that survives the wire; the name printed for M-SEARCH is not one that is read. */
  predicate CleanLine(f: FirstLine) {
    && f.minor < 10
    && match f
       case Reply(_, status, reason) => status <= 999 && CleanReason(reason)
       case Ask(_, verb, _, _, _) => !verb.MSEARCH? && CleanTarget(verb, TargetOf(f))
  }

  /** What `serialize` prints. */
  function LineText(f: FirstLine): string
    requires f.minor < 10
  {
    match f
    case Reply(minor, status, reason) => StatusText(minor, status, reason)
    case Ask(minor, verb, _, _, _) => RequestTextOf(PrintedName(verb), TargetOf(f), minor)
  }

  /** A status without a body, and any request, need not say where the message ends. */
  predicate MayBeSilent(f: FirstLine) { f.Ask? || f.status / 100 == 1 || f.status == 204 || f.status == 304 }

  /** What the parser keeps of the line. */
  function LineOf(f: FirstLine): StartLine {
    match f
    case Reply(minor, status, _) => StartLine(Response, 1, minor, status, DELETE)
    case Ask(minor, verb, _, _, _) => StartLine(Kind.Request, 1, minor, 0, verb)
  }

  lemma LineIsPlain(f: FirstLine)
    requires CleanLine(f)
    ensures f.minor < 10 && (f.Reply? ==> !LineOf(f).verb.CONNECT?)
    ensures !MessageNeedsEof(LineOf(f), Matcher(General, 0, NO_FLAGS, U64_MAX)) <==> MayBeSilent(f)
  {
  }

  /** The matcher after the line. */
  function LineEnd(f: FirstLine): Matcher {
    Matcher(General, if f.Reply? then 0 else |MethodString(f.verb)| + 1, NO_FLAGS, U64_MAX)
  }

  /** The struct after the line. */
  function AfterLine(f: FirstLine): Core {
    Init(Both, true).(state := HeaderFieldStart, line := LineOf(f), m := LineEnd(f))
  }

  /** The reason phrase or the target. */
  function LineData(f: FirstLine): Event {
    match f
    case Reply(_, _, reason) => Data(Mark.Status, reason)
    case Ask(_, _, _, _, _) => Data(Mark.Url, TargetOf(f))
  }

  lemma FirstLineOver(m: Machine, f: FirstLine) returns (w: Machine)
    requires m.core == Init(Both, true) && CleanLine(f)
    ensures Over(m, LineText(f), w) && Is(w, AfterLine(f), m.trace + [MessageBegin, LineData(f)])
  {
    hide Over, CleanReason, CleanTarget, StatusText, MethodString, U.Printed;
    match f
    case Reply(minor, status, reason) => w := StatusLineOver(m, minor, status, reason);
    case Ask(minor, verb, _, _, _) => w := RequestLineOver(m, verb, TargetOf(f), minor);
  }

  /** `http_response::serialize` */
  method PrintReply(minor: nat, status: nat, reason: string, headers: Pairs) returns (msg: string)
    requires minor < 10 && headers != [] && forall i :: 0 <= i < |headers| ==> headers[i].0 != ""
    ensures msg == LineText(Reply(minor, status, reason)) + (Lines(Grouped(headers)) + CRLF)
  {
    hide Lines;
    msg := "HTTP/1." + [DecimalDigit(minor)];
    msg := msg + [SP] + ToDecimal(status) + [SP] + reason + CRLF;
    var block := Serialize(headers);
    msg := msg + block;
  }

  method PrintTarget(path: string, query: string, fragment: string) returns (target: string)
    ensures target == U.Printed(path, query, fragment)
  {
    target := if path != "" then path else "/";
    if query != "" { target := target + ("?" + query); }
    if fragment != "" { target := target + ("#" + fragment); }
  }

  /** `http_request::serialize` */
  method PrintAsk(
    minor: nat, verb: Method, path: string, query: string, fragment: string, headers: Pairs) returns (msg: string)
    requires minor < 10 && headers != [] && forall i :: 0 <= i < |headers| ==> headers[i].0 != ""
    ensures msg == LineText(Ask(minor, verb, path, query, fragment)) + (Lines(Grouped(headers)) + CRLF)
  {
    hide Lines, MethodString, Grouped, U.Printed, IsAlpha;
    var name := PrintedName(verb);
    msg := name + [SP];
    var target := PrintTarget(path, query, fragment);
    var block := Serialize(headers);
    var rest := target + [SP] + ("HTTP/1." + [DecimalDigit(minor)] + CRLF);
    msg := msg + rest;
    msg := msg + block;
  }

  /** The head of either kind of message. */
  method PrintHead(f: FirstLine, headers: Pairs) returns (msg: string)
    requires f.minor < 10 && headers != [] && forall i :: 0 <= i < |headers| ==> headers[i].0 != ""
    ensures msg == LineText(f) + (Lines(Grouped(headers)) + CRLF)
  {
    hide LineText, Lines;
    match f
    case Reply(minor, status, reason) => msg := PrintReply(minor, status, reason, headers);
    case Ask(minor, verb, path, query, fragment) => msg := PrintAsk(minor, verb, path, query, fragment, headers);
  }
}
