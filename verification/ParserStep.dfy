/**
 One octet of `http_parser_execute`: the C switch, case by case.  A case that
 jumps to `reexecute` calls the function of the state it jumps to.
 */
module ParserStep {
  import opened Ascii
  import opened ParserTypes

  function Go(c: Core, s: State): Out { Out(c.(state := s), [], false, false) }

  function GoLine(c: Core, l: StartLine, s: State): Out { Out(c.(state := s, line := l), [], false, false) }

  function GoMatch(c: Core, m: Matcher, s: State): Out { Out(c.(state := s, m := m), [], false, false) }

  function Fail(c: Core, e: Errno): Out
    requires e != Ok
  {
    Out(c.(errno := e), [], false, false)
  }

  function Then(acts: seq<Act>, o: Out): Out { o.(acts := acts + o.acts) }

  /** `STRICT_CHECK` followed by a transition. */
  function Expect(c: Core, ch: char, want: char, s: State): Out {
    if ch != want then Fail(c, Strict) else Go(c, s)
  }

  /* ---- persistence of the connection ---------------------------------- */

  predicate MessageNeedsEof(l: StartLine, m: Matcher) {
    if l.kind.Request? then false
    else if l.status / 100 == 1 || l.status == 204 || l.status == 304 || m.flags.skipBody then false
    else if m.flags.chunked || m.contentLength != U64_MAX then false
    else true
  }

  predicate ShouldKeepAlive(l: StartLine, m: Matcher) {
    if l.major > 0 && l.minor > 0 then !m.flags.close && !MessageNeedsEof(l, m)
    else m.flags.keepAlive && !MessageNeedsEof(l, m)
  }

  /** `NEW_MESSAGE` in strict mode. */
  function NewMessage(l: StartLine, m: Matcher): State {
    if !ShouldKeepAlive(l, m) then Dead
    else if l.kind.Request? then StartReq else StartRes
  }

  /** `UPDATE_STATE(NEW_MESSAGE())` and the message-complete callback. */
  function Complete(c: Core, exits: bool): Out {
    var c' := if c.resets then Init(Both, true) else c.(state := NewMessage(c.line, c.m));
    Out(c', [Note(MessageComplete)], c.resets, exits)
  }

  /* ---- start of a message --------------------------------------------- */

  /** The flags and the length sentinel of a message that begins. */
  function Fresh(m: Matcher): Matcher { m.(flags := NO_FLAGS, contentLength := U64_MAX) }

  function OnDead(c: Core, ch: char): Out {
    if ch == CR || ch == LF then Go(c, Dead) else Fail(c, ClosedConnection)
  }

  function OnStartReqOrRes(c: Core, ch: char): Out {
    if ch == CR || ch == LF then Go(c, StartReqOrRes)
    else if ch == 'H' then Then([Note(MessageBegin)], GoMatch(c, Fresh(c.m), ResOrRespH))
    else OnStartReq(c.(state := StartReq, line := c.line.(kind := Request), m := Fresh(c.m)), ch)
  }

  function OnResOrRespH(c: Core, ch: char): Out {
    if ch == 'T' then GoLine(c, c.line.(kind := Response), ResHT)
    else if ch != 'E' then Fail(c, InvalidConstant)
    else GoMatch(c.(line := c.line.(kind := Request, verb := HEAD)), c.m.(index := 2), ReqMethod)
  }

  /** A leading line end also triggers the message-begin callback here. */
  function OnStartRes(c: Core, ch: char): Out {
    if ch == 'H' then Then([Note(MessageBegin)], GoMatch(c, Fresh(c.m), ResH))
    else if ch == CR || ch == LF then Then([Note(MessageBegin)], GoMatch(c, Fresh(c.m), StartRes))
    else Fail(c, InvalidConstant)
  }

  /* ---- numbers of the start line -------------------------------------- */

  /** Appends a digit to a number that may not exceed 999. */
  function AddDigit(c: Core, l: StartLine, v: nat, s: State, e: Errno): Out
    requires e != Ok
  {
    if v > 999 then Fail(c, e) else GoLine(c, l, s)
  }

  function OnMajor(c: Core, ch: char, next: State): Out {
    if ch == '.' then Go(c, next)
    else if !IsNum(ch) then Fail(c, InvalidVersion)
    else
      var v := c.line.major * 10 + DigitValue(ch);
      AddDigit(c, c.line.(major := v), v, c.state, InvalidVersion)
  }

  function OnFirstMinor(c: Core, ch: char, next: State): Out {
    if !IsNum(ch) then Fail(c, InvalidVersion)
    else GoLine(c, c.line.(minor := DigitValue(ch)), next)
  }

  function OnMinorDigit(c: Core, ch: char): Out {
    if !IsNum(ch) then Fail(c, InvalidVersion)
    else
      var v := c.line.minor * 10 + DigitValue(ch);
      AddDigit(c, c.line.(minor := v), v, c.state, InvalidVersion)
  }

  /* ---- status line ---------------------------------------------------- */

  function OnResFirstHttpMajor(c: Core, ch: char): Out {
    if !IsNum(ch) then Fail(c, InvalidVersion)
    else GoLine(c, c.line.(major := DigitValue(ch)), ResHttpMajor)
  }

  function OnResHttpMinor(c: Core, ch: char): Out {
    if ch == SP then Go(c, ResFirstStatusCode) else OnMinorDigit(c, ch)
  }

  function OnResFirstStatusCode(c: Core, ch: char): Out {
    if IsNum(ch) then GoLine(c, c.line.(status := DigitValue(ch)), ResStatusCode)
    else if ch == SP then Go(c, ResFirstStatusCode)
    else Fail(c, InvalidStatus)
  }

  function OnResStatusCode(c: Core, ch: char): Out {
    if ch == SP then Go(c, ResStatusStart)
    else if ch == CR then Go(c, ResLineAlmostDone)
    else if ch == LF then Go(c, HeaderFieldStart)
    else if !IsNum(ch) then Fail(c, InvalidStatus)
    else
      var v := c.line.status * 10 + DigitValue(ch);
      AddDigit(c, c.line.(status := v), v, ResStatusCode, InvalidStatus)
  }

  function OnResStatusStart(c: Core, ch: char): Out {
    if ch == CR then Go(c, ResLineAlmostDone)
    else if ch == LF then Go(c, HeaderFieldStart)
    else Then([Set(Mark.Status)], GoMatch(c, c.m.(index := 0), ResStatus))
  }

  function OnResStatus(c: Core, ch: char): Out {
    if ch == CR then Then([Flush(Mark.Status)], Go(c, ResLineAlmostDone))
    else if ch == LF then Then([Flush(Mark.Status)], Go(c, HeaderFieldStart))
    else Go(c, ResStatus)
  }

  /* ---- request line --------------------------------------------------- */

  function FirstMethod(ch: char): Option<Method> {
    match ch
    case 'A' => Some(ACL) case 'B' => Some(BIND) case 'C' => Some(CONNECT) case 'D' => Some(DELETE)
    case 'G' => Some(GET) case 'H' => Some(HEAD) case 'L' => Some(LOCK) case 'M' => Some(MKCOL)
    case 'N' => Some(NOTIFY) case 'O' => Some(OPTIONS) case 'P' => Some(POST) case 'R' => Some(REPORT)
    case 'S' => Some(SUBSCRIBE) case 'T' => Some(TRACE) case 'U' => Some(UNLOCK)
    case _ => None
  }

  /** The `XX(meth, pos, ch, new_meth)` table. */
  function SwitchMethod(m: Method, pos: nat, ch: char): Option<Method> {
    if m == POST && pos == 1 && ch == 'U' then Some(PUT)
    else if m == POST && pos == 1 && ch == 'A' then Some(PATCH)
    else if m == CONNECT && pos == 1 && ch == 'H' then Some(CHECKOUT)
    else if m == CONNECT && pos == 2 && ch == 'P' then Some(COPY)
    else if m == MKCOL && pos == 1 && ch == 'O' then Some(MOVE)
    else if m == MKCOL && pos == 1 && ch == 'E' then Some(MERGE)
    else if m == MKCOL && pos == 2 && ch == 'A' then Some(MKACTIVITY)
    else if m == MKCOL && pos == 3 && ch == 'A' then Some(MKCALENDAR)
    else if m == SUBSCRIBE && pos == 1 && ch == 'E' then Some(SEARCH)
    else if m == REPORT && pos == 2 && ch == 'B' then Some(REBIND)
    else if m == POST && pos == 1 && ch == 'R' then Some(PROPFIND)
    else if m == PROPFIND && pos == 4 && ch == 'P' then Some(PROPPATCH)
    else if m == PUT && pos == 2 && ch == 'R' then Some(PURGE)
    else if m == LOCK && pos == 1 && ch == 'I' then Some(LINK)
    else if m == UNLOCK && pos == 2 && ch == 'S' then Some(UNSUBSCRIBE)
    else if m == UNLOCK && pos == 2 && ch == 'B' then Some(UNBIND)
    else if m == UNLOCK && pos == 3 && ch == 'I' then Some(UNLINK)
    else None
  }

  function OnStartReq(c: Core, ch: char): Out {
    if ch == CR || ch == LF then Go(c, StartReq)
    else if !IsAlpha(ch) then Fail(c, InvalidMethod)
    else
      match FirstMethod(ch)
      case None => Fail(c, InvalidMethod)
      case Some(v) =>
        Then([Note(MessageBegin)],
          GoMatch(c.(line := c.line.(verb := v)), Fresh(c.m).(index := 1), ReqMethod))
  }

  /** The octet of a C string at an index: 0 past its end. */
  function At(s: string, i: nat): char { if i < |s| then s[i] else '\0' }

  function OnReqMethod(c: Core, ch: char): Out {
    var want := At(MethodString(c.line.verb), c.m.index);
    var next := c.m.(index := c.m.index + 1);
    if ch == '\0' then Fail(c, InvalidMethod)
    else if ch == SP && want == '\0' then GoMatch(c, next, ReqSpacesBeforeUrl)
    else if ch == want then GoMatch(c, next, ReqMethod)
    else if IsAlpha(ch) then
      match SwitchMethod(c.line.verb, c.m.index, ch)
      case None => Fail(c, InvalidMethod)
      case Some(v) => GoMatch(c.(line := c.line.(verb := v)), next, ReqMethod)
    else if ch == '-' && c.m.index == 1 && c.line.verb.MKCOL? then
      GoMatch(c.(line := c.line.(verb := MSEARCH)), next, ReqMethod)
    else Fail(c, InvalidMethod)
  }

  /** `parse_url_char`. */
  function ParseUrlChar(s: State, ch: char): State {
    if ch == SP || ch == CR || ch == LF || ch == HT || ch == '\U{0c}' then Dead
    else if s.ReqSpacesBeforeUrl? then
      if ch == '/' || ch == '*' then ReqPath else if IsAlpha(ch) then ReqSchema else Dead
    else if s.ReqSchema? then
      if IsAlpha(ch) then s else if ch == ':' then ReqSchemaSlash else Dead
    else if s.ReqSchemaSlash? then if ch == '/' then ReqSchemaSlashSlash else Dead
    else if s.ReqSchemaSlashSlash? then if ch == '/' then ReqServerStart else Dead
    else if s.ReqServerWithAt? && ch == '@' then Dead
    else if s.ReqServerWithAt? || s.ReqServerStart? || s.ReqServer? then
      if ch == '/' then ReqPath
      else if ch == '?' then ReqQueryStringStart
      else if ch == '@' then ReqServerWithAt
      else if IsUserinfoChar(ch) || ch == '[' || ch == ']' then ReqServer
      else Dead
    else if s.ReqPath? then
      if IsUrlChar(ch) then s
      else if ch == '?' then ReqQueryStringStart else if ch == '#' then ReqFragmentStart else Dead
    else if s.ReqQueryStringStart? || s.ReqQueryString? then
      if IsUrlChar(ch) then ReqQueryString
      else if ch == '?' then ReqQueryString else if ch == '#' then ReqFragmentStart else Dead
    else if s.ReqFragmentStart? then
      if IsUrlChar(ch) then ReqFragment
      else if ch == '?' then ReqFragment else if ch == '#' then s else Dead
    else if s.ReqFragment? then
      if IsUrlChar(ch) || ch == '?' || ch == '#' then s else Dead
    else Dead
  }

  function UrlStep(c: Core, ch: char): Out {
    var s := ParseUrlChar(c.state, ch);
    if s.Dead? then Fail(c, InvalidUrl) else Go(c, s)
  }

  function OnReqSpacesBeforeUrl(c: Core, ch: char): Out {
    if ch == SP then Go(c, ReqSpacesBeforeUrl)
    else
      Then([Set(Mark.Url)], UrlStep(if c.line.verb.CONNECT? then c.(state := ReqServerStart) else c, ch))
  }

  /** Schema states and the start of the server: no white space. */
  function OnUrlStrict(c: Core, ch: char): Out {
    if ch == SP || ch == CR || ch == LF then Fail(c, InvalidUrl) else UrlStep(c, ch)
  }

  function OnUrl(c: Core, ch: char): Out {
    if ch == SP then Then([Flush(Mark.Url)], Go(c, ReqHttpStart))
    else if ch == CR then
      Then([Flush(Mark.Url)], GoLine(c, c.line.(major := 0, minor := 9), ReqLineAlmostDone))
    else if ch == LF then
      Then([Flush(Mark.Url)], GoLine(c, c.line.(major := 0, minor := 9), HeaderFieldStart))
    else UrlStep(c, ch)
  }

  function OnReqHttpStart(c: Core, ch: char): Out {
    if ch == 'H' then Go(c, ReqHttpH) else if ch == SP then Go(c, ReqHttpStart)
    else Fail(c, InvalidConstant)
  }

  function OnReqFirstHttpMajor(c: Core, ch: char): Out {
    if ch < '1' || ch > '9' then Fail(c, InvalidVersion)
    else GoLine(c, c.line.(major := DigitValue(ch)), ReqHttpMajor)
  }

  function OnReqHttpMinor(c: Core, ch: char): Out {
    if ch == CR then Go(c, ReqLineAlmostDone)
    else if ch == LF then Go(c, HeaderFieldStart)
    else OnMinorDigit(c, ch)
  }

  function OnReqLineAlmostDone(c: Core, ch: char): Out {
    if ch != LF then Fail(c, LfExpected) else Go(c, HeaderFieldStart)
  }

  /* ---- header fields -------------------------------------------------- */

  const CONNECTION := "connection"
  const PROXY_CONNECTION := "proxy-connection"
  const CONTENT_LENGTH := "content-length"
  const TRANSFER_ENCODING := "transfer-encoding"
  const UPGRADE := "upgrade"
  const CHUNKED := "chunked"
  const KEEP_ALIVE := "keep-alive"
  const CLOSE := "close"

  function FirstFieldState(c: char): HeaderState {
    if c == 'c' then HC
    else if c == 'p' then MatchingProxyConnection
    else if c == 't' then MatchingTransferEncoding
    else if c == 'u' then MatchingUpgrade
    else General
  }

  function OnHeaderFieldStart(c: Core, ch: char): Out {
    if ch == CR then Go(c, HeadersAlmostDone)
    else if ch == LF then OnHeadersAlmostDone(c.(state := HeadersAlmostDone), ch)
    else if !IsToken(ch) then Fail(c, InvalidHeaderToken)
    else
      Then([Set(Field)],
        GoMatch(c, c.m.(index := 0, hs := FirstFieldState(TokenLower(ch))), HeaderField))
  }

  /** What a step of a matcher yields: the new fields, or an error. */
  datatype Matched = Matched(m: Matcher, errno: Errno)

  function Now(m: Matcher): Matched { Matched(m, Ok) }

  function Turn(m: Matcher, h: HeaderState): Matched { Matched(m.(hs := h), Ok) }

  /** Advances a matcher that expects `word`: to `done` at its last octet, to `miss` off the word. */
  function Advance(m: Matcher, word: string, c: char, done: HeaderState, miss: HeaderState): Matcher {
    var i := m.index + 1;
    m.(index := i,
       hs := if i > |word| || c != At(word, i) then miss else if i == |word| - 1 then done else m.hs)
  }

  /** The inner switch of `s_header_field`, on a token octet. */
  function FieldByte(m: Matcher, ch: char): Matched
    requires IsToken(ch)
  {
    var t := TokenLower(ch);
    if m.hs.General? then Now(m)
    else if m.hs.HC? then Now(m.(index := m.index + 1, hs := if t == 'o' then HCO else General))
    else if m.hs.HCO? then Now(m.(index := m.index + 1, hs := if t == 'n' then HCON else General))
    else if m.hs.HCON? then
      Now(m.(index := m.index + 1,
             hs := if t == 'n' then MatchingConnection
                   else if t == 't' then MatchingContentLength else General))
    else if m.hs.MatchingConnection? then Now(Advance(m, CONNECTION, t, HConnection, General))
    else if m.hs.MatchingProxyConnection? then Now(Advance(m, PROXY_CONNECTION, t, HConnection, General))
    else if m.hs.MatchingContentLength? then
      var a := Advance(m, CONTENT_LENGTH, t, HContentLength, General);
      if !a.hs.HContentLength? then Now(a)
      else if m.flags.contentLength then Matched(m, UnexpectedContentLength)
      else Now(a.(flags := m.flags.(contentLength := true)))
    else if m.hs.MatchingTransferEncoding? then
      Now(Advance(m, TRANSFER_ENCODING, t, HTransferEncoding, General))
    else if m.hs.MatchingUpgrade? then Now(Advance(m, UPGRADE, t, HUpgrade, General))
    else if ch != SP then Turn(m, General)
    else Now(m)
  }

  /** The header states that the inner switch of `s_header_field` knows. */
  predicate FieldKnows(h: HeaderState) {
    h.General? || h.HC? || h.HCO? || h.HCON? || h.MatchingConnection? || h.MatchingProxyConnection?
    || h.MatchingContentLength? || h.MatchingTransferEncoding? || h.MatchingUpgrade?
    || h.HConnection? || h.HContentLength? || h.HTransferEncoding? || h.HUpgrade?
  }

  /** Puts the outcome of a matcher back into the struct. */
  function Put(c: Core, r: Matched): Out { Out(c.(m := r.m, errno := r.errno), [], false, false) }

  function OnHeaderField(c: Core, ch: char): Out {
    if IsToken(ch) then Put(c, FieldByte(c.m, ch))
    else if ch == ':' then Then([Flush(Field)], Go(c, HeaderValueDiscardWs))
    else Fail(c, InvalidHeaderToken)
  }

  function OnHeaderValueDiscardWs(c: Core, ch: char): Out {
    if ch == SP || ch == HT then Go(c, HeaderValueDiscardWs)
    else if ch == CR then Go(c, HeaderValueDiscardWsAlmostDone)
    else if ch == LF then Go(c, HeaderValueDiscardLws)
    else OnHeaderValueStart(c, ch)
  }

  /** The switch on the first octet of a value. */
  function FirstValueByte(m: Matcher, ch: char): Matched {
    var l := Lower(ch);
    var n := m.(index := 0);
    if m.hs.HUpgrade? then Now(n.(flags := m.flags.(upgrade := true), hs := General))
    else if m.hs.HTransferEncoding? then Turn(n, if l == 'c' then MatchingChunked else General)
    else if m.hs.HContentLength? then
      if !IsNum(ch) then Matched(n, InvalidContentLength) else Now(n.(contentLength := DigitValue(ch)))
    else if m.hs.HConnection? then
      Turn(n, if l == 'k' then MatchingKeepAlive else if l == 'c' then MatchingClose
              else if l == 'u' then MatchingConnUpgrade else MatchingToken)
    else if m.hs.MatchingTokenStart? then Now(n)
    else Turn(n, General)
  }

  function OnHeaderValueStart(c: Core, ch: char): Out {
    Then([Set(Value)], Put(c.(state := HeaderValue), FirstValueByte(c.m, ch)))
  }

  /** The header states in which the inner switch of `s_header_value` may be entered. */
  predicate ValueKnows(h: HeaderState) { !h.HConnection? && !h.HTransferEncoding? }

  /** Accumulation of a length, with the 64-bit wrap-around and the guard of the source. */
  function AddToLength(m: Matcher, base: nat, d: nat): Matched
    requires base == 10 || base == 16
  {
    var t := (m.contentLength * base + d) % (U64_MAX + 1);
    if (U64_MAX - base) / base < m.contentLength then Matched(m, InvalidContentLength)
    else Now(m.(contentLength := t))
  }

  /** Sets the flag that a completed `Connection` or `Transfer-Encoding` token stands for. */
  function TokenFlags(m: Matcher): Matcher {
    if m.hs.HKeepAlive? then m.(flags := m.flags.(keepAlive := true))
    else if m.hs.HClose? then m.(flags := m.flags.(close := true))
    else if m.hs.HConnUpgrade? then m.(flags := m.flags.(connUpgrade := true))
    else if m.hs.HChunked? then m.(flags := m.flags.(chunked := true))
    else m
  }

  /** The start of a token of a multi-valued `Connection` field. */
  function TokenStart(m: Matcher, l: char): Matched {
    if l == 'k' then Turn(m, MatchingKeepAlive)
    else if l == 'c' then Turn(m, MatchingClose)
    else if l == 'u' then Turn(m, MatchingConnUpgrade)
    else if IsToken(l) then Turn(m, MatchingToken)
    else if l == SP || l == HT then Now(m)
    else Turn(m, General)
  }

  /** The inner switch of `s_header_value`, on an octet that is not a line end. */
  function ValueByte(m: Matcher, ch: char): Matched {
    var l := Lower(ch);
    if m.hs.General? then Now(m)
    else if m.hs.HContentLength? then
      if ch == SP then Now(m)
      else if !IsNum(ch) then Matched(m, InvalidContentLength)
      else AddToLength(m, 10, DigitValue(ch))
    else if m.hs.MatchingChunked? then Now(Advance(m, CHUNKED, l, HChunked, General))
    else if m.hs.MatchingTokenStart? then TokenStart(m, l)
    else if m.hs.MatchingKeepAlive? then Now(Advance(m, KEEP_ALIVE, l, HKeepAlive, MatchingToken))
    else if m.hs.MatchingClose? then Now(Advance(m, CLOSE, l, HClose, MatchingToken))
    else if m.hs.MatchingConnUpgrade? then Now(Advance(m, UPGRADE, l, HConnUpgrade, MatchingToken))
    else if m.hs.MatchingToken? then
      if ch == ',' then Now(m.(hs := MatchingTokenStart, index := 0)) else Now(m)
    else if m.hs.HChunked? then if ch != SP then Turn(m, General) else Now(m)
    else if m.hs.HKeepAlive? || m.hs.HClose? || m.hs.HConnUpgrade? then
      if ch == ',' then Now(TokenFlags(m).(hs := MatchingTokenStart, index := 0))
      else if ch != SP then Turn(m, MatchingToken)
      else Now(m)
    else Turn(m, General)
  }

  /**
   `jumped` is true when this call has already let `memchr` jump to the end of
   this value, so that the octet is not looked at.
   */
  function OnHeaderValue(c: Core, jumped: bool, ch: char): Out {
    if ch == CR then Then([Flush(Value)], Go(c, HeaderAlmostDone))
    else if ch == LF then Then([Flush(Value)], OnHeaderAlmostDone(c.(state := HeaderAlmostDone), ch))
    else if !c.lenient && !jumped && !IsHeaderChar(ch) then Fail(c, InvalidHeaderToken)
    else Put(c, ValueByte(c.m, ch))
  }

  function OnHeaderAlmostDone(c: Core, ch: char): Out {
    if ch != LF then Fail(c, LfExpected) else Go(c, HeaderValueLws)
  }

  function OnHeaderValueLws(c: Core, ch: char): Out {
    if ch == SP || ch == HT then OnHeaderValueStart(c.(state := HeaderValueStart), ch)
    else OnHeaderFieldStart(c.(m := TokenFlags(c.m), state := HeaderFieldStart), ch)
  }

  function OnHeaderValueDiscardLws(c: Core, ch: char): Out {
    if ch == SP || ch == HT then Go(c, HeaderValueDiscardWs)
    else
      Then([Set(Value), Flush(Value)],
        OnHeaderFieldStart(c.(m := TokenFlags(c.m), state := HeaderFieldStart), ch))
  }

  /* ---- end of the header block ---------------------------------------- */

  function OnHeadersAlmostDone(c: Core, ch: char): Out {
    if ch != LF then Fail(c, Strict)
    else if c.m.flags.trailing then
      Then([Note(ChunkComplete(true))], OnMessageDone(c.(state := MessageDone)))
    else if c.m.flags.chunked && c.m.flags.contentLength then Fail(c, UnexpectedContentLength)
    else
      var up := (c.m.flags.upgrade && c.m.flags.connUpgrade) || c.line.verb.CONNECT?;
      Then([Note(HeadersComplete(c.line, ShouldKeepAlive(c.line, c.m)))],
        OnHeadersDone(c.(state := HeadersDone, upgrade := up), ch))
  }

  /** Where the message goes once its header block is complete; `None` when it has no body. */
  function BodyState(l: StartLine, m: Matcher): Option<State> {
    if m.flags.skipBody then None
    else if m.flags.chunked then Some(ChunkSizeStart)
    else if m.contentLength == 0 then None
    else if m.contentLength != U64_MAX then Some(BodyIdentity)
    else if !MessageNeedsEof(l, m) then None
    else Some(BodyIdentityEof)
  }

  function OnHeadersDone(c: Core, ch: char): Out {
    if ch != LF then Fail(c, Strict)
    else
      var hasBody := c.m.flags.chunked || (c.m.contentLength > 0 && c.m.contentLength != U64_MAX);
      if c.upgrade && (c.line.verb.CONNECT? || c.m.flags.skipBody || !hasBody) then
        Complete(c, true).(clears := true)
      else
        match BodyState(c.line, c.m)
        case None => Complete(c, false).(clears := true)
        case Some(s) => Go(c, s).(clears := true)
  }

  function OnMessageDone(c: Core): Out {
    var o := Complete(c, false);
    o.(exits := o.core.upgrade)
  }

  /* ---- bodies --------------------------------------------------------- */

  /** One octet less to read. */
  function Countdown(m: Matcher): Matcher {
    m.(contentLength := if m.contentLength == 0 then 0 else m.contentLength - 1)
  }

  /** One octet of a body of known length. */
  function OnBodyIdentity(c: Core, ch: char): Out {
    var d := c.(m := Countdown(c.m));
    Then([Note(Data(Mark.Body, [ch]))],
      if d.m.contentLength == 0 then OnMessageDone(d.(state := MessageDone)) else Go(d, BodyIdentity))
  }

  function OnBodyIdentityEof(c: Core, ch: char): Out {
    Then([Note(Data(Mark.Body, [ch]))], Go(c, BodyIdentityEof))
  }

  function OnChunkSizeStart(c: Core, ch: char): Out {
    var v := Unhex(ch);
    if v == -1 then Fail(c, InvalidChunkSize) else GoMatch(c, c.m.(contentLength := v), ChunkSize)
  }

  function OnChunkSize(c: Core, ch: char): Out {
    var v := Unhex(ch);
    if ch == CR then Go(c, ChunkSizeAlmostDone)
    else if v == -1 then
      if ch == ';' || ch == SP then Go(c, ChunkParameters) else Fail(c, InvalidChunkSize)
    else Put(c, AddToLength(c.m, 16, v))
  }

  function OnChunkParameters(c: Core, ch: char): Out {
    if ch == CR then Go(c, ChunkSizeAlmostDone) else Go(c, ChunkParameters)
  }

  function OnChunkSizeAlmostDone(c: Core, ch: char): Out {
    if ch != LF then Fail(c, Strict)
    else
      Then([Note(ChunkHeader(c.m.contentLength, false))],
        if c.m.contentLength == 0
        then GoMatch(c, c.m.(flags := c.m.flags.(trailing := true)), HeaderFieldStart)
        else Go(c, ChunkData)).(clears := true)
  }

  /** One octet of chunk data. */
  function OnChunkData(c: Core, ch: char): Out {
    var n := Countdown(c.m);
    Then([Note(Data(Mark.Body, [ch]))],
      GoMatch(c, n, if n.contentLength == 0 then ChunkDataAlmostDone else ChunkData))
  }

  function OnChunkDataAlmostDone(c: Core, ch: char): Out {
    if ch != CR then Fail(c, Strict) else Then([Flush(Mark.Body)], Go(c, ChunkDataDone))
  }

  function OnChunkDataDone(c: Core, ch: char): Out {
    if ch != LF then Fail(c, Strict)
    else Then([Note(ChunkComplete(false))], Go(c, ChunkSizeStart)).(clears := true)
  }

  /* ---- the switch, by phase ------------------------------------------- */

  predicate InStart(s: State) {
    s.Dead? || s.StartReqOrRes? || s.ResOrRespH? || s.StartRes? || s.StartReq? || s.ReqMethod?
    || s.ReqSpacesBeforeUrl?
  }

  function StartStep(c: Core, ch: char): Out
    requires InStart(c.state)
  {
    if c.state.Dead? then OnDead(c, ch)
    else if c.state.StartReqOrRes? then OnStartReqOrRes(c, ch)
    else if c.state.ResOrRespH? then OnResOrRespH(c, ch)
    else if c.state.StartRes? then OnStartRes(c, ch)
    else if c.state.StartReq? then OnStartReq(c, ch)
    else if c.state.ReqMethod? then OnReqMethod(c, ch)
    else OnReqSpacesBeforeUrl(c, ch)
  }

  predicate InStatusLine(s: State) {
    s.ResH? || s.ResHT? || s.ResHTT? || s.ResHTTP? || s.ResFirstHttpMajor? || s.ResHttpMajor?
    || s.ResFirstHttpMinor? || s.ResHttpMinor? || s.ResFirstStatusCode? || s.ResStatusCode?
    || s.ResStatusStart? || s.ResStatus? || s.ResLineAlmostDone?
  }

  function StatusLineStep(c: Core, ch: char): Out
    requires InStatusLine(c.state)
  {
    if c.state.ResH? then Expect(c, ch, 'T', ResHT)
    else if c.state.ResHT? then Expect(c, ch, 'T', ResHTT)
    else if c.state.ResHTT? then Expect(c, ch, 'P', ResHTTP)
    else if c.state.ResHTTP? then Expect(c, ch, '/', ResFirstHttpMajor)
    else if c.state.ResFirstHttpMajor? then OnResFirstHttpMajor(c, ch)
    else if c.state.ResHttpMajor? then OnMajor(c, ch, ResFirstHttpMinor)
    else if c.state.ResFirstHttpMinor? then OnFirstMinor(c, ch, ResHttpMinor)
    else if c.state.ResHttpMinor? then OnResHttpMinor(c, ch)
    else if c.state.ResFirstStatusCode? then OnResFirstStatusCode(c, ch)
    else if c.state.ResStatusCode? then OnResStatusCode(c, ch)
    else if c.state.ResStatusStart? then OnResStatusStart(c, ch)
    else if c.state.ResStatus? then OnResStatus(c, ch)
    else Expect(c, ch, LF, HeaderFieldStart)
  }

  predicate InUrl(s: State) {
    s.ReqSchema? || s.ReqSchemaSlash? || s.ReqSchemaSlashSlash? || s.ReqServerStart? || s.ReqServer?
    || s.ReqServerWithAt? || s.ReqPath? || s.ReqQueryStringStart? || s.ReqQueryString?
    || s.ReqFragmentStart? || s.ReqFragment?
  }

  function UrlPhaseStep(c: Core, ch: char): Out
    requires InUrl(c.state)
  {
    if c.state.ReqSchema? || c.state.ReqSchemaSlash? || c.state.ReqSchemaSlashSlash? || c.state.ReqServerStart?
    then OnUrlStrict(c, ch)
    else OnUrl(c, ch)
  }

  predicate InRequestVersion(s: State) {
    s.ReqHttpStart? || s.ReqHttpH? || s.ReqHttpHT? || s.ReqHttpHTT? || s.ReqHttpHTTP?
    || s.ReqFirstHttpMajor? || s.ReqHttpMajor? || s.ReqFirstHttpMinor? || s.ReqHttpMinor?
    || s.ReqLineAlmostDone?
  }

  function RequestVersionStep(c: Core, ch: char): Out
    requires InRequestVersion(c.state)
  {
    if c.state.ReqHttpStart? then OnReqHttpStart(c, ch)
    else if c.state.ReqHttpH? then Expect(c, ch, 'T', ReqHttpHT)
    else if c.state.ReqHttpHT? then Expect(c, ch, 'T', ReqHttpHTT)
    else if c.state.ReqHttpHTT? then Expect(c, ch, 'P', ReqHttpHTTP)
    else if c.state.ReqHttpHTTP? then Expect(c, ch, '/', ReqFirstHttpMajor)
    else if c.state.ReqFirstHttpMajor? then OnReqFirstHttpMajor(c, ch)
    else if c.state.ReqHttpMajor? then OnMajor(c, ch, ReqFirstHttpMinor)
    else if c.state.ReqFirstHttpMinor? then OnFirstMinor(c, ch, ReqHttpMinor)
    else if c.state.ReqHttpMinor? then OnReqHttpMinor(c, ch)
    else OnReqLineAlmostDone(c, ch)
  }

  predicate InHeaderBlock(s: State) {
    s.HeaderFieldStart? || s.HeaderField? || s.HeaderValueDiscardWs? || s.HeaderValueDiscardWsAlmostDone?
    || s.HeaderValueDiscardLws? || s.HeaderValueStart? || s.HeaderValue? || s.HeaderValueLws?
    || s.HeaderAlmostDone? || s.HeadersAlmostDone? || s.HeadersDone?
  }

  function HeaderStep(c: Core, jumped: bool, ch: char): Out
    requires InHeaderBlock(c.state)
  {
    if c.state.HeaderFieldStart? then OnHeaderFieldStart(c, ch)
    else if c.state.HeaderField? then OnHeaderField(c, ch)
    else if c.state.HeaderValueDiscardWs? then OnHeaderValueDiscardWs(c, ch)
    else if c.state.HeaderValueDiscardWsAlmostDone? then Expect(c, ch, LF, HeaderValueDiscardLws)
    else if c.state.HeaderValueDiscardLws? then OnHeaderValueDiscardLws(c, ch)
    else if c.state.HeaderValueStart? then OnHeaderValueStart(c, ch)
    else if c.state.HeaderValue? then OnHeaderValue(c, jumped, ch)
    else if c.state.HeaderValueLws? then OnHeaderValueLws(c, ch)
    else if c.state.HeaderAlmostDone? then OnHeaderAlmostDone(c, ch)
    else if c.state.HeadersAlmostDone? then OnHeadersAlmostDone(c, ch)
    else OnHeadersDone(c, ch)
  }

  predicate InChunk(s: State) {
    s.ChunkSizeStart? || s.ChunkSize? || s.ChunkParameters? || s.ChunkSizeAlmostDone?
    || s.ChunkData? || s.ChunkDataAlmostDone? || s.ChunkDataDone?
  }

  predicate InBody(s: State) { InChunk(s) || s.BodyIdentity? || s.BodyIdentityEof? || s.MessageDone? }

  function BodyStep(c: Core, ch: char): Out
    requires InBody(c.state)
  {
    if c.state.ChunkSizeStart? then OnChunkSizeStart(c, ch)
    else if c.state.ChunkSize? then OnChunkSize(c, ch)
    else if c.state.ChunkParameters? then OnChunkParameters(c, ch)
    else if c.state.ChunkSizeAlmostDone? then OnChunkSizeAlmostDone(c, ch)
    else if c.state.ChunkData? then OnChunkData(c, ch)
    else if c.state.ChunkDataAlmostDone? then OnChunkDataAlmostDone(c, ch)
    else if c.state.ChunkDataDone? then OnChunkDataDone(c, ch)
    else if c.state.BodyIdentity? then OnBodyIdentity(c, ch)
    else if c.state.BodyIdentityEof? then OnBodyIdentityEof(c, ch)
    else OnMessageDone(c)
  }

  /** Every state belongs to exactly one phase, so the switch is total. */
  function Transition(c: Core, jumped: bool, ch: char): Out {
    if InStart(c.state) then StartStep(c, ch)
    else if InStatusLine(c.state) then StatusLineStep(c, ch)
    else if InUrl(c.state) then UrlPhaseStep(c, ch)
    else if InRequestVersion(c.state) then RequestVersionStep(c, ch)
    else if InHeaderBlock(c.state) then HeaderStep(c, jumped, ch)
    else BodyStep(c, ch)
  }

  /* ---- the case of the switch that a header state selects -------------- */

  lemma HeaderTurn(c: Core, jumped: bool, ch: char)
    requires InHeaderBlock(c.state)
    ensures Transition(c, jumped, ch) == HeaderStep(c, jumped, ch)
  {
    hide StartStep, StatusLineStep, UrlPhaseStep, RequestVersionStep, HeaderStep, BodyStep;
  }

  lemma BodyTurn(c: Core, jumped: bool, ch: char)
    requires InBody(c.state)
    ensures Transition(c, jumped, ch) == BodyStep(c, ch)
  {
    hide StartStep, StatusLineStep, UrlPhaseStep, RequestVersionStep, HeaderStep, BodyStep;
  }

  lemma FieldTurn(c: Core, jumped: bool, ch: char)
    requires c.state.HeaderFieldStart? || c.state.HeadersAlmostDone?
    ensures Transition(c, jumped, ch)
      == if c.state.HeaderFieldStart? then OnHeaderFieldStart(c, ch) else OnHeadersAlmostDone(c, ch)
  {
    HeaderTurn(c, jumped, ch);
    hide Transition, OnHeaderFieldStart, OnHeadersAlmostDone;
  }

  lemma LineEndTurn(c: Core, jumped: bool, ch: char)
    requires c.state.HeaderValueDiscardLws? || c.state.HeaderValueLws?
    ensures Transition(c, jumped, ch)
      == if c.state.HeaderValueLws? then OnHeaderValueLws(c, ch) else OnHeaderValueDiscardLws(c, ch)
  {
    HeaderTurn(c, jumped, ch);
    hide Transition, OnHeaderValueLws, OnHeaderValueDiscardLws;
  }
}
