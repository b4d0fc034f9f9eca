/**
 The request line: what `http_request::serialize` prints and what the parser
 makes of it.
 */
module RequestLine {
  import opened Ascii
  import opened Numerals
  import opened ParserTypes
  import opened ParserStep
  import opened ParserMachine
  import opened ParserInvariant
  import opened ParserRuns
  import opened ParserWords
  import opened ChunkedCoding
  import opened MethodNames
  import U = UrlParser
  import L = Locations

  /** A step of the request line without callbacks, after `s`. */
  lemma StillThen(m: Machine, s: string, a: Machine, ch: char, c: Core) returns (w: Machine)
    requires Over(m, s, a) && Transition(a.core, a.jumped, ch) == Out(c, [], false, false) && c.errno.Ok?
    requires OpenMark(a.core.state).None? && OpenMark(c.state).None?
    ensures Over(m, s + [ch], w) && Is(w, c, a.trace)
  {
    assert !a.core.state.HeaderValue?;
    hide Transition, Step, Run, OpenMark;
    PlainStep(a, ch, Out(c, [], false, false));
    w := Step(a, ch);
    OverThen(m, s, a, ch);
  }

  /* ---- the method ----------------------------------------------------- */

  /** The struct when `i` octets of the name of `v` have been read. */
  function Naming(v: Method, i: nat): Core {
    Init(Both, true).(state := ReqMethod, line := StartLine(Request, 0, 0, 0, Held(v, i)),
                      m := Matcher(General, i, NO_FLAGS, U64_MAX))
  }

  lemma FirstOut(v: Method)
    requires !v.HEAD?
    ensures
      OnStartReqOrRes(Init(Both, true), MethodString(v)[0])
        == Out(Naming(v, 1), [Note(MessageBegin)] + [], false, false)
  {
    HeldFirst(v);
    FirstIsH(v);
    hide Held, MethodString, FirstMethod;
  }

  lemma FirstIsH(v: Method)
    ensures IsAlpha(MethodString(v)[0]) && (MethodString(v)[0] == 'H' <==> v.HEAD?)
  {
  }

  lemma StartTurn(c: Core, jumped: bool, ch: char)
    requires c.state.StartReqOrRes? || c.state.ReqMethod? || c.state.ResOrRespH? || c.state.ReqSpacesBeforeUrl?
    ensures Transition(c, jumped, ch)
      == if c.state.StartReqOrRes? then OnStartReqOrRes(c, ch)
         else if c.state.ReqMethod? then OnReqMethod(c, ch)
         else if c.state.ResOrRespH? then OnResOrRespH(c, ch) else OnReqSpacesBeforeUrl(c, ch)
  {
    hide OnStartReqOrRes, OnReqMethod, OnResOrRespH, OnReqSpacesBeforeUrl,
      StatusLineStep, UrlPhaseStep, RequestVersionStep, HeaderStep, BodyStep;
  }

  /** A first octet, with its message-begin callback. */
  lemma BeginOver(m: Machine, ch: char, c: Core)
    requires m.core == Init(Both, true)
      && OnStartReqOrRes(m.core, ch) == Out(c, [Note(MessageBegin)] + [], false, false)
    requires c.errno.Ok? && OpenMark(c.state).None?
    ensures Over(m, [ch], Step(m, ch)) && Is(Step(m, ch), c, m.trace + [MessageBegin])
  {
    hide Transition, Step, OnStartReqOrRes;
    StartTurn(m.core, m.jumped, ch);
    PlainStep(m, ch, Out(c, [Note(MessageBegin)] + [], false, false));
    OneNote(m.trace, MessageBegin);
    OverOctet(m, ch);
  }

  /** `HEAD` shares its first letter with `HTTP`. */
  lemma HeadStarts(m: Machine) returns (w: Machine)
    requires m.core == Init(Both, true)
    ensures Over(m, "HE", w) && Is(w, Naming(HEAD, 2), m.trace + [MessageBegin])
  {
    hide Transition, Step, Over;
    var c := m.core.(state := ResOrRespH, m := Fresh(m.core.m));
    assert OnStartReqOrRes(m.core, 'H') == Out(c, [Note(MessageBegin)] + [], false, false);
    BeginOver(m, 'H', c);
    var a := Step(m, 'H');
    StartTurn(a.core, a.jumped, 'E');
    w := StillThen(m, "H", a, 'E', Naming(HEAD, 2));
    assert "H" + ['E'] == "HE";
  }

  lemma MoreOut(v: Method, i: nat)
    requires 1 <= i < |MethodString(v)|
    ensures OnReqMethod(Naming(v, i), MethodString(v)[i]) == Out(Naming(v, i + 1), [], false, false)
  {
    hide MethodString, Held, NextMethod, OnReqMethod;
    NamesAreText(v, i);
    HeldNext(v, i);
    NoSpace(v, i);
    MethodOctet(Naming(v, i), MethodString(v)[i]);
  }

  lemma NoSpace(v: Method, i: nat)
    requires i < |MethodString(v)|
    ensures MethodString(v)[i] != SP
  {
  }

  lemma NameStarts(m: Machine, v: Method) returns (w: Machine)
    requires m.core == Init(Both, true) && !v.HEAD?
    ensures Over(m, MethodString(v)[..1], w) && Is(w, Naming(v, 1), m.trace + [MessageBegin])
  {
    hide Transition, Step, Over, Held, OnStartReqOrRes, MethodString;
    var n := MethodString(v);
    NamesAreLong(v);
    FirstOut(v);
    BeginOver(m, n[0], Naming(v, 1));
    w := Step(m, n[0]);
    assert n[..1] == [n[0]];
  }

  lemma NameMore(m: Machine, v: Method, i: nat, a: Machine) returns (w: Machine)
    requires 1 <= i < |MethodString(v)| && Over(m, MethodString(v)[..i], a) && a.core == Naming(v, i)
    ensures Over(m, MethodString(v)[..i + 1], w) && Is(w, Naming(v, i + 1), a.trace)
  {
    hide Transition, Step, Over, Held, OnReqMethod, MethodString;
    var n := MethodString(v);
    MoreOut(v, i);
    StartTurn(a.core, a.jumped, n[i]);
    w := StillThen(m, n[..i], a, n[i], Naming(v, i + 1));
    assert n[..i] + [n[i]] == n[..i + 1];
  }

  lemma NamesAreLong(v: Method)
    ensures |MethodString(v)| >= 2 && (v.HEAD? ==> MethodString(v)[..2] == "HE")
  {
  }

  lemma {:induction false} NameOver(m: Machine, v: Method, i: nat) returns (w: Machine)
    requires m.core == Init(Both, true) && (if v.HEAD? then 2 else 1) <= i <= |MethodString(v)|
    ensures Over(m, MethodString(v)[..i], w) && Is(w, Naming(v, i), m.trace + [MessageBegin])
    decreases i
  {
    hide Over, Naming, MethodString;
    NamesAreLong(v);
    if v.HEAD? && i == 2 {
      w := HeadStarts(m);
    } else if i == 1 {
      w := NameStarts(m, v);
    } else {
      var a := NameOver(m, v, i - 1);
      w := NameMore(m, v, i - 1, a);
    }
  }

  /** The struct where the target is expected. */
  function Targeting(v: Method): Core {
    Init(Both, true).(state := ReqSpacesBeforeUrl, line := StartLine(Request, 0, 0, 0, v),
                      m := Matcher(General, |MethodString(v)| + 1, NO_FLAGS, U64_MAX))
  }

  lemma NameEnds(v: Method)
    ensures OnReqMethod(Naming(v, |MethodString(v)|), SP) == Out(Targeting(v), [], false, false)
  {
    HeldLast(v);
    hide MethodString, Held, SwitchMethod;
  }

  lemma MethodOver(m: Machine, v: Method) returns (w: Machine)
    requires m.core == Init(Both, true)
    ensures Over(m, MethodString(v) + [SP], w) && Is(w, Targeting(v), m.trace + [MessageBegin])
  {
    hide Transition, Step, Over, MethodString, OnReqMethod, Held;
    var n := MethodString(v);
    NamesAreLong(v);
    var a := NameOver(m, v, |n|);
    assert n[..|n|] == n;
    NameEnds(v);
    StartTurn(a.core, a.jumped, SP);
    w := StillThen(m, n, a, SP, Targeting(v));
  }

  /* ---- the target ----------------------------------------------------- */

  function UrlRun(s: State, t: string): State
    decreases |t|
  {
    if t == "" then s else UrlRun(ParseUrlChar(s, t[0]), t[1..])
  }

  /** The states in which a space ends the target. */
  predicate TargetEnds(s: State) {
    s.ReqServer? || s.ReqServerWithAt? || s.ReqPath? || s.ReqQueryStringStart? || s.ReqQueryString?
    || s.ReqFragmentStart? || s.ReqFragment?
  }

  /** Where the target begins: the target of CONNECT is a server. */
  function UrlStart(v: Method): State { if v.CONNECT? then ReqServerStart else ReqSpacesBeforeUrl }

  /** A target that the parser lets through and `on_url` does not find too long. */
  predicate CleanTarget(v: Method, t: string) {
    t != "" && |t| <= L.MAX_TARGET && TargetEnds(UrlRun(UrlStart(v), t))
  }

  lemma {:induction false} DeadStays(t: string)
    ensures UrlRun(Dead, t) == Dead
    decreases |t|
  {
    if t != "" { DeadStays(t[1..]); }
  }

  /** A run that does not die is one of URL states. */
  lemma UrlCharIn(s: State, ch: char)
    requires !ParseUrlChar(s, ch).Dead?
    ensures InUrl(ParseUrlChar(s, ch)) && ch != SP && ch != CR && ch != LF
  {
    hide IsUrlChar, IsUserinfoChar, IsAlpha;
  }

  lemma UrlOut(c: Core, jumped: bool, ch: char)
    requires InUrl(c.state) && !ParseUrlChar(c.state, ch).Dead?
    ensures Transition(c, jumped, ch) == Out(c.(state := ParseUrlChar(c.state, ch)), [], false, false)
  {
    UrlCharIn(c.state, ch);
    hide ParseUrlChar, StartStep, StatusLineStep, RequestVersionStep, HeaderStep, BodyStep;
  }

  /** A step whose octet continues the URL. */
  lemma UrlStepOver(m: Machine, ch: char)
    requires m.core.errno.Ok? && InUrl(m.core.state) && !ParseUrlChar(m.core.state, ch).Dead?
    ensures Over(m, [ch], Step(m, ch))
    ensures Is(Step(m, ch), m.core.(state := ParseUrlChar(m.core.state, ch)), Emit(m.trace, Data(Mark.Url, [ch])))
  {
    UrlCharIn(m.core.state, ch);
    UrlOut(m.core, m.jumped, ch);
    assert Is(Step(m, ch), m.core.(state := ParseUrlChar(m.core.state, ch)), Emit(m.trace, Data(Mark.Url, [ch]))) by {
      hide Transition, ParseUrlChar, Emit;
    }
    hide Transition, Step, ParseUrlChar;
    OverOctet(m, ch);
  }

  lemma {:induction false} UrlOver(m: Machine, t: string) returns (w: Machine)
    requires m.core.errno.Ok? && InUrl(m.core.state) && EndsIn(m.trace, Mark.Url)
    requires !UrlRun(m.core.state, t).Dead?
    ensures Over(m, t, w)
    ensures Is(w, m.core.(state := UrlRun(m.core.state, t)), Emit(m.trace, Data(Mark.Url, t)))
    decreases |t|
  {
    hide Transition, Step, Over, ParseUrlChar, Emit;
    if t == "" {
      w := m;
      OverNothing(m);
      EmitNothing(m.trace, Mark.Url);
    } else {
      if ParseUrlChar(m.core.state, t[0]).Dead? { DeadStays(t[1..]); }
      UrlStepOver(m, t[0]);
      UrlCharIn(m.core.state, t[0]);
      var x := Step(m, t[0]);
      EmitEnds(m.trace, Mark.Url, [t[0]]);
      EmitExtend(m.trace, Mark.Url, [t[0]], t[1..]);
      w := UrlOver(x, t[1..]);
      OverTrans(m, [t[0]], x, t[1..], w);
      assert [t[0]] + t[1..] == t;
    }
  }

  lemma FirstUrlOut(c: Core, ch: char)
    requires c.state.ReqSpacesBeforeUrl? && !ParseUrlChar(UrlStart(c.line.verb), ch).Dead?
    ensures
      var s := ParseUrlChar(UrlStart(c.line.verb), ch);
      OnReqSpacesBeforeUrl(c, ch) == Out(c.(state := s), [Set(Mark.Url)] + [], false, false)
  {
    UrlCharIn(UrlStart(c.line.verb), ch);
    hide ParseUrlChar;
  }

  lemma UrlFirst(m: Machine, ch: char)
    requires m.core.errno.Ok? && m.core.state.ReqSpacesBeforeUrl? && !ParseUrlChar(UrlStart(m.core.line.verb), ch).Dead?
    ensures Over(m, [ch], Step(m, ch))
    ensures
      var s := ParseUrlChar(UrlStart(m.core.line.verb), ch);
      Is(Step(m, ch), m.core.(state := s), Emit(m.trace, Data(Mark.Url, [ch])))
  {
    var s := ParseUrlChar(UrlStart(m.core.line.verb), ch);
    UrlCharIn(UrlStart(m.core.line.verb), ch);
    StartTurn(m.core, m.jumped, ch);
    FirstUrlOut(m.core, ch);
    OneSet(m.trace, Mark.Url);
    assert Is(Step(m, ch), m.core.(state := s), Emit(m.trace, Data(Mark.Url, [ch]))) by {
      hide Transition, ParseUrlChar, Emit, OnReqSpacesBeforeUrl, Interpret;
    }
    hide Transition, Step, ParseUrlChar, OnReqSpacesBeforeUrl;
    OverOctet(m, ch);
  }

  lemma UrlEndOut(c: Core, jumped: bool)
    requires TargetEnds(c.state)
    ensures Transition(c, jumped, SP) == Out(c.(state := ReqHttpStart), [Flush(Mark.Url)] + [], false, false)
  {
    hide StartStep, StatusLineStep, RequestVersionStep, HeaderStep, BodyStep, ParseUrlChar;
  }

  lemma UrlEnd(m: Machine)
    requires m.core.errno.Ok? && TargetEnds(m.core.state) && EndsIn(m.trace, Mark.Url)
    ensures Over(m, [SP], Step(m, SP)) && Is(Step(m, SP), m.core.(state := ReqHttpStart), m.trace)
  {
    UrlEndOut(m.core, m.jumped);
    OneFlush(m.trace, Mark.Url);
    assert Is(Step(m, SP), m.core.(state := ReqHttpStart), m.trace) by {
      hide Transition, Emit, Interpret;
    }
    hide Transition, Step;
    OverOctet(m, SP);
  }

  /** The octets of the target. */
  lemma TargetRuns(m: Machine, t: string) returns (w: Machine)
    requires m.core.errno.Ok? && m.core.state.ReqSpacesBeforeUrl? && CleanTarget(m.core.line.verb, t)
    ensures Over(m, t, w) && EndsIn(w.trace, Mark.Url) && TargetEnds(w.core.state)
    ensures Is(w, m.core.(state := UrlRun(UrlStart(m.core.line.verb), t)), Emit(m.trace, Data(Mark.Url, t)))
  {
    hide Transition, Step, Over, ParseUrlChar, Emit;
    var s := UrlStart(m.core.line.verb);
    if ParseUrlChar(s, t[0]).Dead? { DeadStays(t[1..]); }
    UrlFirst(m, t[0]);
    UrlCharIn(s, t[0]);
    var a := Step(m, t[0]);
    EmitEnds(m.trace, Mark.Url, [t[0]]);
    w := UrlOver(a, t[1..]);
    OverTrans(m, [t[0]], a, t[1..], w);
    assert [t[0]] + t[1..] == t;
    EmitExtend(m.trace, Mark.Url, [t[0]], t[1..]);
    EmitEnds(m.trace, Mark.Url, t);
  }

  /** The target and the space behind it. */
  lemma TargetOver(m: Machine, t: string) returns (w: Machine)
    requires m.core.errno.Ok? && m.core.state.ReqSpacesBeforeUrl? && CleanTarget(m.core.line.verb, t)
    ensures Over(m, t + [SP], w)
    ensures Is(w, m.core.(state := ReqHttpStart), Emit(m.trace, Data(Mark.Url, t)))
  {
    hide Transition, Step, Over, CleanTarget, Emit, UrlRun, TargetEnds;
    var b := TargetRuns(m, t);
    UrlEnd(b);
    w := Step(b, SP);
    OverTrans(m, t, b, [SP], w);
  }

  /* ---- the version ---------------------------------------------------- */

  lemma VersionThen(m: Machine, s: string, a: Machine, ch: char, c: Core) returns (w: Machine)
    requires Over(m, s, a) && InRequestVersion(a.core.state)
    requires RequestVersionStep(a.core, ch) == Out(c, [], false, false) && c.errno.Ok?
    requires InRequestVersion(c.state) || c.state.HeaderFieldStart?
    ensures Over(m, s + [ch], w) && Is(w, c, a.trace)
  {
    hide Transition, Step, Over, RequestVersionStep, OpenMark, InRequestVersion;
    VersionTurn(a.core, a.jumped, ch);
    NoMark(a.core.state);
    NoMark(c.state);
    w := StillThen(m, s, a, ch, c);
  }

  lemma NoMark(s: State)
    requires InRequestVersion(s) || s.HeaderFieldStart?
    ensures OpenMark(s).None?
  {
  }

  lemma VersionTurn(c: Core, jumped: bool, ch: char)
    requires InRequestVersion(c.state)
    ensures Transition(c, jumped, ch) == RequestVersionStep(c, ch)
  {
    hide StartStep, StatusLineStep, UrlPhaseStep, RequestVersionStep, HeaderStep, BodyStep;
  }

  lemma RequestVersionOver(m: Machine, minor: nat) returns (w: Machine)
    requires m.core.errno.Ok? && m.core.state.ReqHttpStart? && minor < 10
    ensures Over(m, "HTTP/1." + [DecimalDigit(minor)] + CRLF, w)
    ensures Is(w, m.core.(state := HeaderFieldStart, line := m.core.line.(major := 1, minor := minor)), m.trace)
  {
    hide Over, Transition;
    OverNothing(m);
    var c := m.core;
    w := VersionThen(m, "", m, 'H', c.(state := ReqHttpH));
    w := VersionThen(m, "" + ['H'], w, 'T', c.(state := ReqHttpHT));
    w := VersionThen(m, "" + ['H'] + ['T'], w, 'T', c.(state := ReqHttpHTT));
    assert "" + ['H'] + ['T'] + ['T'] == "HTT";
    w := VersionThen(m, "HTT", w, 'P', c.(state := ReqHttpHTTP));
    w := VersionThen(m, "HTT" + ['P'], w, '/', c.(state := ReqFirstHttpMajor));
    assert "HTT" + ['P'] + ['/'] == "HTTP/";
    c := c.(line := c.line.(major := 1));
    w := VersionThen(m, "HTTP/", w, '1', c.(state := ReqHttpMajor));
    w := VersionThen(m, "HTTP/" + ['1'], w, '.', c.(state := ReqFirstHttpMinor));
    assert "HTTP/" + ['1'] + ['.'] == "HTTP/1.";
    w := LastDigitOver(m, w, c, minor);
  }

  lemma LastDigitOver(m: Machine, a: Machine, c: Core, minor: nat) returns (w: Machine)
    requires c.errno.Ok? && Over(m, "HTTP/1.", a) && a.core == c.(state := ReqFirstHttpMinor) && minor < 10
    ensures Over(m, "HTTP/1." + [DecimalDigit(minor)] + CRLF, w)
    ensures Is(w, c.(state := HeaderFieldStart, line := c.line.(minor := minor)), a.trace)
  {
    hide Over, Transition;
    var d := c.(line := c.line.(minor := minor));
    var s := "HTTP/1." + [DecimalDigit(minor)];
    w := VersionThen(m, "HTTP/1.", a, DecimalDigit(minor), d.(state := ReqHttpMinor));
    w := VersionThen(m, s, w, CR, d.(state := ReqLineAlmostDone));
    w := VersionThen(m, s + [CR], w, LF, d.(state := HeaderFieldStart));
    assert s + [CR] + [LF] == s + CRLF;
  }

  /* ---- the line ------------------------------------------------------- */

  /** A request line. */
  function RequestTextOf(name: string, target: string, minor: nat): string
    requires minor < 10
  {
    name + [SP] + (target + [SP] + ("HTTP/1." + [DecimalDigit(minor)] + CRLF))
  }

  /** A request line with the name that the parser reads. */
  function RequestText(v: Method, target: string, minor: nat): string
    requires minor < 10
  {
    RequestTextOf(MethodString(v), target, minor)
  }

  /** The struct after a request line. */
  function AfterRequest(v: Method, minor: nat): Core {
    Init(Both, true).(state := HeaderFieldStart, line := StartLine(Request, 1, minor, 0, v),
                      m := Matcher(General, |MethodString(v)| + 1, NO_FLAGS, U64_MAX))
  }

  lemma RequestLineOver(m: Machine, v: Method, target: string, minor: nat) returns (w: Machine)
    requires m.core == Init(Both, true) && minor < 10 && CleanTarget(v, target)
    ensures Over(m, RequestText(v, target, minor), w)
    ensures Is(w, AfterRequest(v, minor), m.trace + [MessageBegin, Data(Mark.Url, target)])
  {
    hide Over, Transition, Step, MethodString, CleanTarget;
    var a := MethodOver(m, v);
    var b := TargetOver(a, target);
    w := RequestVersionOver(b, minor);
    var rest := "HTTP/1." + [DecimalDigit(minor)] + CRLF;
    OverTrans(a, target + [SP], b, rest, w);
    OverTrans(m, MethodString(v) + [SP], a, target + [SP] + rest, w);
    assert Emit(m.trace + [MessageBegin], Data(Mark.Url, target)) == m.trace + [MessageBegin, Data(Mark.Url, target)];
  }

  /* ---- targets that can be split -------------------------------------- */

  /** Which fields the scan has set, as far as the state tells. */
  predicate Told(c: U.Cursor) {
    && (c.s.ReqSpacesBeforeUrl? ==> c.fields == map[])
    && (!c.s.ReqSpacesBeforeUrl? ==> InUrl(c.s))
    && (c.s.ReqSchema? || c.s.ReqSchemaSlash? || c.s.ReqSchemaSlashSlash? || c.s.ReqServerStart? ==>
          U.Schema in c.fields && U.Host !in c.fields)
  }

  lemma TakeTold(c: U.Cursor, p: nat, ch: char)
    requires U.WellLinked(c) && Told(c) && U.Take(c, p, ch).Some?
    ensures Told(U.Take(c, p, ch).value) && !U.Take(c, p, ch).value.s.ReqSpacesBeforeUrl?
    ensures U.Take(c, p, ch).value.s == ParseUrlChar(c.s, ch)
  {
    hide IsUrlChar, IsUserinfoChar, IsAlpha;
  }

  lemma {:induction false} SplitRuns(c: U.Cursor, buf: string, p: nat)
    requires U.WellLinked(c) && Told(c) && p <= |buf| && U.Split(c, buf, p).Some?
    ensures
      var d := U.Split(c, buf, p).value;
      && d.s == UrlRun(c.s, buf[p..]) && Told(d) && (p < |buf| ==> !d.s.ReqSpacesBeforeUrl?)
    decreases |buf| - p
  {
    hide U.Take, Told, ParseUrlChar;
    if p < |buf| {
      TakeTold(c, p, buf[p]);
      SplitRuns(U.Take(c, p, buf[p]).value, buf, p + 1);
      assert buf[p..][1..] == buf[p + 1..];
    } else {
      assert buf[p..] == "";
    }
  }

  /**
   The parser lets every target through that `http_parser_parse_url` accepts, and so
   everything that `http_request::serialize` prints for well-formed components.
   */
  lemma SplitTargetsAreClean(v: Method, t: string)
    requires !v.CONNECT? && t != "" && |t| <= L.MAX_TARGET && U.ParseUrl(t, false).Some?
    ensures CleanTarget(v, t)
  {
    hide ParseUrlChar, UrlRun, U.ParseHost, Decimal, U.DigitsUpTo;
    SplitRuns(U.Start(false), t, 0);
    assert t[0..] == t;
  }

  lemma PrintedTargetsAreClean(v: Method, path: string, query: string, fragment: string)
    requires !v.CONNECT? && U.Legal(path, query, fragment)
    requires |U.Printed(path, query, fragment)| <= L.MAX_TARGET
    ensures CleanTarget(v, U.Printed(path, query, fragment))
  {
    hide CleanTarget, U.ParseUrl, U.Legal;
    U.PrintedSplits(path, query, fragment);
    SplitTargetsAreClean(v, U.Printed(path, query, fragment));
  }
}
