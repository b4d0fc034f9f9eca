/**
 First lines that are spelled otherwise than they are printed (section 3 of RFC 7230): line
 ends in front, more spaces, other versions, bare line feeds, no reason phrase, and the
 request line of HTTP/0.9.
 */
module FirstLineForms {
  import opened Ascii
  import opened Numerals
  import opened ParserTypes
  import opened ParserStep
  import opened ParserMachine
  import opened ParserRuns
  import opened ParserWords
  import opened StatusLine
  import opened RequestLine

  predicate IsLineEnd(s: string) { s == "\r\n" || s == "\n" }

  predicate AreLineEnds(s: string) { forall i :: 0 <= i < |s| ==> s[i] == '\r' || s[i] == '\n' }

  predicate AreSpaces(s: string) { forall i :: 0 <= i < |s| ==> s[i] == ' ' }

  /** A number of the first line, in decimal. */
  predicate IsSmall(x: string) { x != "" && IsDigits(x) && Decimal(x) <= 999 }

  /* ---- octets that change nothing ---------------------------------------- */

  ghost predicate Idles(c: Core, ch: char) { forall j :: Transition(c, j, ch) == Out(c, [], false, false) }

  lemma {:induction false} IdleOver(m: Machine, s: string) returns (w: Machine)
    requires m.core.errno.Ok? && OpenMark(m.core.state).None? && !m.core.state.HeaderValue?
    requires forall i :: 0 <= i < |s| ==> Idles(m.core, s[i])
    ensures Over(m, s, w) && Is(w, m.core, m.trace)
    decreases |s|
  {
    hide Transition, Step, Over, OpenMark;
    if s == "" {
      w := m;
      OverNothing(m);
    } else {
      assert Idles(m.core, s[0]);
      PlainStep(m, s[0], Out(m.core, [], false, false));
      OverOctet(m, s[0]);
      var a := Step(m, s[0]);
      w := IdleOver(a, s[1..]);
      OverTrans(m, [s[0]], a, s[1..], w);
      assert [s[0]] + s[1..] == s;
    }
  }

  lemma BlankIdles(c: Core, ch: char)
    requires c.state.StartReqOrRes? && (ch == '\r' || ch == '\n')
    ensures Idles(c, ch)
  {
    forall j ensures Transition(c, j, ch) == Out(c, [], false, false) { StartTurn(c, j, ch); }
  }

  lemma SpaceIdles(c: Core)
    requires c.state.ReqSpacesBeforeUrl? || c.state.ReqHttpStart? || c.state.ResFirstStatusCode?
    ensures Idles(c, ' ')
  {
    hide OnReqMethod, OnStartReqOrRes, OnResOrRespH, ParseUrlChar, HeaderStep, BodyStep;
  }

  /** Line ends in front of a message. */
  lemma BlankOver(m: Machine, s: string) returns (w: Machine)
    requires m.core == Init(Both, true) && AreLineEnds(s)
    ensures Over(m, s, w) && Is(w, m.core, m.trace)
  {
    forall i | 0 <= i < |s| ensures Idles(m.core, s[i]) { BlankIdles(m.core, s[i]); }
    hide Idles, Over;
    w := IdleOver(m, s);
  }

  lemma SpacesOver(m: Machine, s: string) returns (w: Machine)
    requires m.core.errno.Ok? && AreSpaces(s)
    requires m.core.state.ReqSpacesBeforeUrl? || m.core.state.ReqHttpStart? || m.core.state.ResFirstStatusCode?
    ensures Over(m, s, w) && Is(w, m.core, m.trace)
  {
    SpaceIdles(m.core);
    hide Idles, Over;
    w := IdleOver(m, s);
  }

  /* ---- numbers ------------------------------------------------------------ */

  lemma SmallPart(x: string)
    requires IsSmall(x) && |x| > 1
    ensures
      var k := |x| - 1;
      && IsSmall(x[..k]) && IsNum(x[k]) && x[..k] + [x[k]] == x
      && Decimal(x) == Decimal(x[..k]) * 10 + DigitValue(x[k])
  {
  }

  lemma SmallDigit(x: string)
    requires IsSmall(x) && |x| == 1
    ensures IsNum(x[0]) && Decimal(x) == DigitValue(x[0]) && x == [x[0]]
  {
    assert x[..0] == "";
  }

  /* ---- the version of a request --------------------------------------------- */

  function Versioned(c: Core, s: State, major: nat, minor: nat): Core {
    c.(state := s, line := c.line.(major := major, minor := minor))
  }

  lemma {:induction false} RequestMajor(m: Machine, c: Core, s: string, a: Machine, x: string) returns (w: Machine)
    requires Over(m, s, a) && a.core == c && c.errno.Ok? && c.state.ReqFirstHttpMajor? && IsSmall(x) && x[0] != '0'
    ensures Over(m, s + x, w) && Is(w, Versioned(c, ReqHttpMajor, Decimal(x), c.line.minor), a.trace)
    decreases |x|
  {
    hide Over, Transition, Decimal, IsDigits;
    var k := |x| - 1;
    if k == 0 {
      SmallDigit(x);
      w := VersionThen(m, s, a, x[0], Versioned(c, ReqHttpMajor, Decimal(x), c.line.minor));
    } else {
      SmallPart(x);
      var b := RequestMajor(m, c, s, a, x[..k]);
      w := VersionThen(m, s + x[..k], b, x[k], Versioned(c, ReqHttpMajor, Decimal(x), c.line.minor));
      assert s + x[..k] + [x[k]] == s + x;
    }
  }

  lemma {:induction false} RequestMinor(m: Machine, c: Core, s: string, a: Machine, x: string) returns (w: Machine)
    requires Over(m, s, a) && a.core == c && c.errno.Ok? && c.state.ReqFirstHttpMinor? && IsSmall(x)
    ensures Over(m, s + x, w) && Is(w, Versioned(c, ReqHttpMinor, c.line.major, Decimal(x)), a.trace)
    decreases |x|
  {
    hide Over, Transition, Decimal, IsDigits;
    var k := |x| - 1;
    if k == 0 {
      SmallDigit(x);
      w := VersionThen(m, s, a, x[0], Versioned(c, ReqHttpMinor, c.line.major, Decimal(x)));
    } else {
      SmallPart(x);
      var b := RequestMinor(m, c, s, a, x[..k]);
      w := VersionThen(m, s + x[..k], b, x[k], Versioned(c, ReqHttpMinor, c.line.major, Decimal(x)));
      assert s + x[..k] + [x[k]] == s + x;
    }
  }

  lemma HttpOver(m: Machine) returns (w: Machine)
    requires m.core.errno.Ok? && m.core.state.ReqHttpStart?
    ensures Over(m, "HTTP/", w) && Is(w, m.core.(state := ReqFirstHttpMajor), m.trace)
  {
    hide Over, Transition;
    OverNothing(m);
    var c := m.core;
    w := VersionThen(m, "", m, 'H', c.(state := ReqHttpH));
    w := VersionThen(m, "" + ['H'], w, 'T', c.(state := ReqHttpHT));
    w := VersionThen(m, "" + ['H'] + ['T'], w, 'T', c.(state := ReqHttpHTT));
    assert "" + ['H'] + ['T'] + ['T'] == "HTT";
    w := VersionThen(m, "HTT", w, 'P', c.(state := ReqHttpHTTP));
    w := VersionThen(m, "HTT" + ['P'], w, '/', c.(state := ReqFirstHttpMajor));
    assert "HTT" + ['P'] + ['/'] == "HTTP/";
  }

  lemma RequestEnd(m: Machine, s: string, a: Machine, eol: string) returns (w: Machine)
    requires Over(m, s, a) && a.core.errno.Ok? && a.core.state.ReqHttpMinor? && IsLineEnd(eol)
    ensures Over(m, s + eol, w) && Is(w, a.core.(state := HeaderFieldStart), a.trace)
  {
    hide Over, Transition;
    if eol == "\n" {
      w := VersionThen(m, s, a, LF, a.core.(state := HeaderFieldStart));
      assert s + [LF] == s + eol;
    } else {
      var b := VersionThen(m, s, a, CR, a.core.(state := ReqLineAlmostDone));
      w := VersionThen(m, s + [CR], b, LF, a.core.(state := HeaderFieldStart));
      assert s + [CR] + [LF] == s + eol;
    }
  }

  function VersionText(major: string, minor: string): string { "HTTP/" + major + "." + minor }

  lemma VersionReads(m: Machine, x: string, y: string, eol: string) returns (w: Machine)
    requires m.core.errno.Ok? && m.core.state.ReqHttpStart? && IsSmall(x) && x[0] != '0' && IsSmall(y) && IsLineEnd(eol)
    ensures Over(m, VersionText(x, y) + eol, w)
    ensures Is(w, Versioned(m.core, HeaderFieldStart, Decimal(x), Decimal(y)), m.trace)
  {
    hide Over, Transition, Decimal, IsDigits, IsSmall;
    var a := HttpOver(m);
    var b := RequestMajor(m, a.core, "HTTP/", a, x);
    var c := VersionThen(m, "HTTP/" + x, b, '.', b.core.(state := ReqFirstHttpMinor));
    var d := RequestMinor(m, c.core, "HTTP/" + x + ['.'], c, y);
    w := RequestEnd(m, "HTTP/" + x + ['.'] + y, d, eol);
  }

  /* ---- request lines --------------------------------------------------------- */

  /** The parts of a request line, and what stands between them. */
  datatype RequestForm = RequestForm(
    blank: string, verb: Method, gap: string, target: string, space: string, major: string, minor: string,
    eol: string)

  predicate IsRequestForm(f: RequestForm) {
    && AreLineEnds(f.blank) && AreSpaces(f.gap) && CleanTarget(f.verb, f.target) && AreSpaces(f.space)
    && IsSmall(f.major) && f.major[0] != '0' && IsSmall(f.minor) && IsLineEnd(f.eol)
  }

  function AskText(f: RequestForm): string { MethodString(f.verb) + " " + (f.gap + (f.target + " ")) }

  function FormText(f: RequestForm): string {
    f.blank + (AskText(f) + (f.space + (VersionText(f.major, f.minor) + f.eol)))
  }

  /** The struct behind the target. */
  function Asked(v: Method): Core { Targeting(v).(state := ReqHttpStart) }

  lemma AskOver(m: Machine, f: RequestForm) returns (w: Machine)
    requires m.core == Init(Both, true) && AreSpaces(f.gap) && CleanTarget(f.verb, f.target)
    ensures Over(m, AskText(f), w) && Is(w, Asked(f.verb), m.trace + [MessageBegin, Data(Mark.Url, f.target)])
  {
    hide Over, Transition, MethodString, CleanTarget, Emit;
    var a := MethodOver(m, f.verb);
    var b := SpacesOver(a, f.gap);
    var c := TargetOver(b, f.target);
    OverTrans(a, f.gap, b, f.target + " ", c);
    OverTrans(m, MethodString(f.verb) + " ", a, f.gap + (f.target + " "), c);
    w := c;
    AskTrace(m.trace, f.target);
  }

  lemma AskTrace(tr: seq<Event>, t: string)
    ensures Emit(tr + [MessageBegin], Data(Mark.Url, t)) == tr + [MessageBegin, Data(Mark.Url, t)]
  {
  }

  /** A request line in any of these forms is read whole, and its version is that of the numbers. */
  lemma RequestReads(m: Machine, f: RequestForm) returns (w: Machine)
    requires m.core == Init(Both, true) && IsRequestForm(f)
    ensures Over(m, FormText(f), w)
    ensures Is(w, Versioned(Asked(f.verb), HeaderFieldStart, Decimal(f.major), Decimal(f.minor)),
               m.trace + [MessageBegin, Data(Mark.Url, f.target)])
  {
    hide Over, Transition, MethodString, CleanTarget, IsSmall, Decimal, AskText, VersionText, Asked, IsLineEnd;
    var a := BlankOver(m, f.blank);
    var b := AskOver(a, f);
    AskedOk(f.verb);
    var c := SpacesOver(b, f.space);
    w := VersionReads(c, f.major, f.minor, f.eol);
    OverTrans(b, f.space, c, VersionText(f.major, f.minor) + f.eol, w);
    OverTrans(a, AskText(f), b, f.space + (VersionText(f.major, f.minor) + f.eol), w);
    OverTrans(m, f.blank, a, AskText(f) + (f.space + (VersionText(f.major, f.minor) + f.eol)), w);
  }

  lemma AskedOk(v: Method)
    ensures Asked(v).errno.Ok? && Asked(v).state.ReqHttpStart?
  {
    hide MethodString;
  }

  /* ---- HTTP/0.9: nothing but a method and a target ------------------------------ */

  lemma UrlMark(s: State)
    requires TargetEnds(s)
    ensures OpenMark(s) == Some(Mark.Url) && !s.HeaderValue?
    ensures OpenMark(ReqLineAlmostDone).None? && OpenMark(HeaderFieldStart).None?
  {
  }

  lemma StopOut(c: Core, jumped: bool, ch: char, s: State)
    requires TargetEnds(c.state) && ((ch == CR && s == ReqLineAlmostDone) || (ch == LF && s == HeaderFieldStart))
    ensures Transition(c, jumped, ch) == Out(Versioned(c, s, 0, 9), [Flush(Mark.Url)] + [], false, false)
  {
    hide StartStep, StatusLineStep, RequestVersionStep, HeaderStep, BodyStep, ParseUrlChar;
  }

  /** A step that ends a data callback. */
  lemma FlushStep(m: Machine, ch: char, k: Mark, c: Core)
    requires Transition(m.core, m.jumped, ch) == Out(c, [Flush(k)] + [], false, false) && EndsIn(m.trace, k)
    requires OpenMark(m.core.state) == Some(k) && OpenMark(c.state).None? && !m.core.state.HeaderValue?
    requires m.core.errno.Ok? && c.errno.Ok?
    ensures Over(m, [ch], Step(m, ch)) && Is(Step(m, ch), c, m.trace)
  {
    OneFlush(m.trace, k);
    assert Is(Step(m, ch), c, m.trace) by {
      hide Transition, Emit, Interpret, OpenMark;
    }
    hide Transition, Step;
    OverOctet(m, ch);
  }

  lemma UrlStop(m: Machine, ch: char, s: State) returns (w: Machine)
    requires m.core.errno.Ok? && TargetEnds(m.core.state) && EndsIn(m.trace, Mark.Url)
    requires (ch == CR && s == ReqLineAlmostDone) || (ch == LF && s == HeaderFieldStart)
    ensures Over(m, [ch], w) && Is(w, Versioned(m.core, s, 0, 9), m.trace)
  {
    StopOut(m.core, m.jumped, ch, s);
    UrlMark(m.core.state);
    hide Transition, Step, OpenMark, TargetEnds, Over;
    FlushStep(m, ch, Mark.Url, Versioned(m.core, s, 0, 9));
    w := Step(m, ch);
  }

  lemma UrlStops(m: Machine, eol: string) returns (w: Machine)
    requires m.core.errno.Ok? && TargetEnds(m.core.state) && EndsIn(m.trace, Mark.Url) && IsLineEnd(eol)
    ensures Over(m, eol, w) && Is(w, Versioned(m.core, HeaderFieldStart, 0, 9), m.trace)
  {
    hide Over, Transition, TargetEnds;
    if eol == "\n" {
      w := UrlStop(m, LF, HeaderFieldStart);
      assert [LF] == eol;
    } else {
      var a := UrlStop(m, CR, ReqLineAlmostDone);
      w := VersionThen(m, [CR], a, LF, Versioned(m.core, HeaderFieldStart, 0, 9));
      assert [CR] + [LF] == eol;
    }
  }

  function SimpleText(f: RequestForm): string { f.blank + (MethodString(f.verb) + " " + (f.gap + (f.target + f.eol))) }

  /** Such a line is read whole as well, and as version 0.9. */
  lemma SimpleReads(m: Machine, f: RequestForm) returns (w: Machine)
    requires m.core == Init(Both, true) && AreLineEnds(f.blank) && AreSpaces(f.gap) && IsLineEnd(f.eol)
    requires CleanTarget(f.verb, f.target)
    ensures Over(m, SimpleText(f), w)
    ensures Is(w, Versioned(Asked(f.verb), HeaderFieldStart, 0, 9), m.trace + [MessageBegin, Data(Mark.Url, f.target)])
  {
    hide Over, Transition, MethodString, CleanTarget, Emit, IsLineEnd, UrlRun, TargetEnds;
    var a := BlankOver(m, f.blank);
    var b := MethodOver(a, f.verb);
    var c := SpacesOver(b, f.gap);
    var d := TargetRuns(c, f.target);
    w := UrlStops(d, f.eol);
    OverTrans(c, f.target, d, f.eol, w);
    OverTrans(b, f.gap, c, f.target + f.eol, w);
    OverTrans(a, MethodString(f.verb) + " ", b, f.gap + (f.target + f.eol), w);
    OverTrans(m, f.blank, a, MethodString(f.verb) + " " + (f.gap + (f.target + f.eol)), w);
    AskTrace(m.trace, f.target);
  }

  /* ---- status lines ---------------------------------------------------------------- */

  /** The parts of a status line; `reason` is what stands behind the code. */
  datatype StatusForm = StatusForm(
    major: string, minor: string, space: string, code: string, reason: string, eol: string)

  /** The reason, if there is one, stands behind a space. */
  predicate IsStatusForm(f: StatusForm) {
    && IsSmall(f.major) && IsSmall(f.minor) && AreSpaces(f.space) && IsSmall(f.code) && IsLineEnd(f.eol)
    && (f.reason == "" || (f.reason[0] == ' ' && (|f.reason| == 1 || CleanReason(f.reason[1..]))))
  }

  function StatusVersion(f: StatusForm): string { VersionText(f.major, f.minor) + " " }

  function StatusFormText(f: StatusForm): string {
    StatusVersion(f) + (f.space + (f.code + (f.reason + f.eol)))
  }

  lemma {:induction false} StatusMajor(m: Machine, c: Core, s: string, a: Machine, x: string) returns (w: Machine)
    requires Over(m, s, a) && a.core == c && c.errno.Ok? && c.state.ResFirstHttpMajor? && IsSmall(x)
    ensures Over(m, s + x, w) && Is(w, Versioned(c, ResHttpMajor, Decimal(x), c.line.minor), a.trace)
    decreases |x|
  {
    hide Over, Transition, Decimal, IsDigits;
    var k := |x| - 1;
    if k == 0 {
      SmallDigit(x);
      w := QuietThen(m, s, a, x[0], Versioned(c, ResHttpMajor, Decimal(x), c.line.minor));
    } else {
      SmallPart(x);
      var b := StatusMajor(m, c, s, a, x[..k]);
      w := QuietThen(m, s + x[..k], b, x[k], Versioned(c, ResHttpMajor, Decimal(x), c.line.minor));
      assert s + x[..k] + [x[k]] == s + x;
    }
  }

  lemma {:induction false} StatusMinor(m: Machine, c: Core, s: string, a: Machine, x: string) returns (w: Machine)
    requires Over(m, s, a) && a.core == c && c.errno.Ok? && c.state.ResFirstHttpMinor? && IsSmall(x)
    ensures Over(m, s + x, w) && Is(w, Versioned(c, ResHttpMinor, c.line.major, Decimal(x)), a.trace)
    decreases |x|
  {
    hide Over, Transition, Decimal, IsDigits;
    var k := |x| - 1;
    if k == 0 {
      SmallDigit(x);
      w := QuietThen(m, s, a, x[0], Versioned(c, ResHttpMinor, c.line.major, Decimal(x)));
    } else {
      SmallPart(x);
      var b := StatusMinor(m, c, s, a, x[..k]);
      w := QuietThen(m, s + x[..k], b, x[k], Versioned(c, ResHttpMinor, c.line.major, Decimal(x)));
      assert s + x[..k] + [x[k]] == s + x;
    }
  }

  lemma {:induction false} StatusCode(m: Machine, c: Core, s: string, a: Machine, x: string) returns (w: Machine)
    requires Over(m, s, a) && a.core == c && c.errno.Ok? && c.state.ResFirstStatusCode? && IsSmall(x)
    ensures Over(m, s + x, w) && Is(w, WithStatus(c, ResStatusCode, Decimal(x)), a.trace)
    decreases |x|
  {
    hide Over, Transition, Decimal, IsDigits;
    var k := |x| - 1;
    if k == 0 {
      SmallDigit(x);
      w := QuietThen(m, s, a, x[0], WithStatus(c, ResStatusCode, Decimal(x)));
    } else {
      SmallPart(x);
      var b := StatusCode(m, c, s, a, x[..k]);
      w := QuietThen(m, s + x[..k], b, x[k], WithStatus(c, ResStatusCode, Decimal(x)));
      assert s + x[..k] + [x[k]] == s + x;
    }
  }

  /** The struct behind "HTTP/", the version and a space. */
  function Replied(major: nat, minor: nat): Core {
    Init(Both, true).(state := ResFirstStatusCode, line := StartLine(Response, major, minor, 0, DELETE),
                      m := Matcher(General, 0, NO_FLAGS, U64_MAX))
  }

  lemma SlashOver(m: Machine) returns (w: Machine)
    requires m.core == Init(Both, true)
    ensures Over(m, "HTTP/", w)
    ensures Is(w, Replied(0, 0).(state := ResFirstHttpMajor), m.trace + [MessageBegin])
  {
    hide Over, Transition;
    w := FirstOctets(m);
    var c := w.core;
    w := QuietThen(m, "HT", w, 'T', c.(state := ResHTT));
    w := QuietThen(m, "HT" + ['T'], w, 'P', c.(state := ResHTTP));
    w := QuietThen(m, "HT" + ['T'] + ['P'], w, '/', c.(state := ResFirstHttpMajor));
    assert "HT" + ['T'] + ['P'] + ['/'] == "HTTP/";
  }

  lemma StatusVersionReads(m: Machine, f: StatusForm) returns (w: Machine)
    requires m.core == Init(Both, true) && IsSmall(f.major) && IsSmall(f.minor)
    ensures Over(m, StatusVersion(f), w)
    ensures Is(w, Replied(Decimal(f.major), Decimal(f.minor)), m.trace + [MessageBegin])
  {
    hide Over, Transition, Decimal, IsDigits, IsSmall;
    var x, y := f.major, f.minor;
    var a := SlashOver(m);
    var b := StatusMajor(m, a.core, "HTTP/", a, x);
    var c := QuietThen(m, "HTTP/" + x, b, '.', b.core.(state := ResFirstHttpMinor));
    var d := StatusMinor(m, c.core, "HTTP/" + x + ['.'], c, y);
    w := QuietThen(m, "HTTP/" + x + ['.'] + y, d, ' ', d.core.(state := ResFirstStatusCode));
  }

  /** The line end behind a code, or behind the space after it. */
  lemma BareEnd(m: Machine, s: string, a: Machine, eol: string) returns (w: Machine)
    requires Over(m, s, a) && a.core.errno.Ok? && (a.core.state.ResStatusCode? || a.core.state.ResStatusStart?)
    requires IsLineEnd(eol)
    ensures Over(m, s + eol, w) && Is(w, a.core.(state := HeaderFieldStart), a.trace)
  {
    hide Over, Transition;
    if eol == "\n" {
      w := QuietThen(m, s, a, LF, a.core.(state := HeaderFieldStart));
      assert s + [LF] == s + eol;
    } else {
      var b := QuietThen(m, s, a, CR, a.core.(state := ResLineAlmostDone));
      w := QuietThen(m, s + [CR], b, LF, a.core.(state := HeaderFieldStart));
      assert s + [CR] + [LF] == s + eol;
    }
  }

  lemma ReasonStop(m: Machine, ch: char, s: State)
    requires m.core.errno.Ok? && m.core.state.ResStatus? && EndsIn(m.trace, Mark.Status)
    requires (ch == CR && s == ResLineAlmostDone) || (ch == LF && s == HeaderFieldStart)
    ensures Over(m, [ch], Step(m, ch)) && Is(Step(m, ch), m.core.(state := s), m.trace)
  {
    ReasonOut(m.core, m.jumped, ch, s);
    hide Transition, Step, Over;
    FlushStep(m, ch, Mark.Status, m.core.(state := s));
  }

  lemma ReasonOut(c: Core, jumped: bool, ch: char, s: State)
    requires c.state.ResStatus? && ((ch == CR && s == ResLineAlmostDone) || (ch == LF && s == HeaderFieldStart))
    ensures Transition(c, jumped, ch) == Out(c.(state := s), [Flush(Mark.Status)] + [], false, false)
  {
    hide StartStep, UrlPhaseStep, RequestVersionStep, HeaderStep, BodyStep;
  }

  lemma ReasonReads(m: Machine, r: string, eol: string) returns (w: Machine)
    requires m.core.errno.Ok? && m.core.state.ResStatusStart? && CleanReason(r) && IsLineEnd(eol)
    ensures Over(m, r + eol, w)
    ensures
      Is(w, m.core.(state := HeaderFieldStart, m := m.core.m.(index := 0)), Emit(m.trace, Data(Mark.Status, r)))
  {
    hide Over, Transition, Step, Emit;
    ReasonFirst(m, r[0]);
    var d := Step(m, r[0]);
    StatusEnds(m.trace, [r[0]]);
    var e := ReasonOver(d, r[1..]);
    OverTrans(m, [r[0]], d, r[1..], e);
    assert [r[0]] + r[1..] == r;
    EmitExtend(m.trace, Mark.Status, [r[0]], r[1..]);
    StatusEnds(m.trace, r);
    w := ReasonLine(e, eol);
    OverTrans(m, r, e, eol, w);
  }

  lemma ReasonLine(e: Machine, eol: string) returns (w: Machine)
    requires e.core.errno.Ok? && e.core.state.ResStatus? && EndsIn(e.trace, Mark.Status) && IsLineEnd(eol)
    ensures Over(e, eol, w) && Is(w, e.core.(state := HeaderFieldStart), e.trace)
  {
    hide Over, Transition, Step;
    if eol == "\n" {
      ReasonStop(e, LF, HeaderFieldStart);
      w := Step(e, LF);
      assert [LF] == eol;
    } else {
      ReasonStop(e, CR, ResLineAlmostDone);
      var g := Step(e, CR);
      w := QuietThen(e, [CR], g, LF, e.core.(state := HeaderFieldStart));
      assert [CR] + [LF] == eol;
    }
  }

  /** What the status callback is told. */
  function ReasonEvents(reason: string): seq<Event> {
    if |reason| <= 1 then [MessageBegin] else [MessageBegin, Data(Mark.Status, reason[1..])]
  }

  lemma TailReads(m: Machine, reason: string, eol: string) returns (w: Machine)
    requires m.core.errno.Ok? && m.core.state.ResStatusCode? && m.core.m.index == 0 && IsLineEnd(eol)
    requires reason == "" || (reason[0] == ' ' && (|reason| == 1 || CleanReason(reason[1..])))
    ensures Over(m, reason + eol, w)
    ensures
      Is(w, m.core.(state := HeaderFieldStart),
         if |reason| <= 1 then m.trace else Emit(m.trace, Data(Mark.Status, reason[1..])))
  {
    hide Over, Transition, Step, Emit, CleanReason, IsLineEnd;
    OverNothing(m);
    if reason == "" {
      w := BareEnd(m, "", m, eol);
      assert "" + eol == reason + eol;
    } else {
      var a := QuietThen(m, "", m, ' ', m.core.(state := ResStatusStart));
      assert "" + [' '] == [' '] && [' '] + reason[1..] == reason;
      if |reason| == 1 {
        w := BareEnd(m, [' '], a, eol);
        assert reason == [' '];
        assert [' '] + eol == reason + eol;
      } else {
        w := ReasonReads(a, reason[1..], eol);
        OverTrans(m, [' '], a, reason[1..] + eol, w);
        assert [' '] + (reason[1..] + eol) == reason + eol;
      }
    }
  }

  /**
   A status line in any of these forms is read whole: the version and the code are those of
   the numbers, and the reason phrase is told where there is one.
   */
  lemma StatusReads(m: Machine, f: StatusForm) returns (w: Machine)
    requires m.core == Init(Both, true) && IsStatusForm(f)
    ensures Over(m, StatusFormText(f), w)
    ensures
      Is(w, WithStatus(Replied(Decimal(f.major), Decimal(f.minor)), HeaderFieldStart, Decimal(f.code)),
         m.trace + ReasonEvents(f.reason))
  {
    hide Over, Transition, Decimal, IsSmall, StatusVersion, Emit, IsLineEnd, CleanReason;
    var a := StatusVersionReads(m, f);
    var b := SpacesOver(a, f.space);
    OverNothing(b);
    var c := StatusCode(b, b.core, "", b, f.code);
    assert "" + f.code == f.code;
    w := TailReads(c, f.reason, f.eol);
    OverTrans(b, f.code, c, f.reason + f.eol, w);
    OverTrans(a, f.space, b, f.code + (f.reason + f.eol), w);
    OverTrans(m, StatusVersion(f), a, f.space + (f.code + (f.reason + f.eol)), w);
    if |f.reason| > 1 { AfterBegin(m.trace, f.reason[1..]); }
  }
}
