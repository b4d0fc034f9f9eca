/**
 The status line of a response: what `http_response::serialize` prints and what
 the parser makes of it.
 */
module StatusLine {
  import opened Ascii
  import opened Numerals
  import opened ParserTypes
  import opened ParserStep
  import opened ParserMachine
  import opened ParserRuns
  import opened ParserWords

  /** A step of the status line without callbacks. */
  lemma Quiet(m: Machine, ch: char, c: Core)
    requires m.core.errno.Ok? && InStatusLine(m.core.state) && !m.core.state.ResStatus?
    requires StatusLineStep(m.core, ch) == Out(c, [], false, false) && c.errno.Ok? && !c.state.ResStatus?
    requires InStatusLine(c.state) || c.state.HeaderFieldStart?
    ensures Over(m, [ch], Step(m, ch)) && Is(Step(m, ch), c, m.trace)
  {
    assert Is(Step(m, ch), c, m.trace) by {
      hide StartStep, UrlPhaseStep, RequestVersionStep, HeaderStep, BodyStep, StatusLineStep;
    }
    hide Transition, Step;
    OverOctet(m, ch);
  }

  lemma FirstOctets(m: Machine) returns (w: Machine)
    requires m.core == Init(Both, true)
    ensures Over(m, "HT", w)
    ensures Is(w, Init(Both, true).(state := ResHT, line := m.core.line.(kind := Response), m := Fresh(m.core.m)),
               m.trace + [MessageBegin])
  {
    var a := BeginOctet(m);
    w := KindOctet(a);
    hide Transition, Step, Over;
    OverThen(m, "H", a, 'T');
    assert "H" + ['T'] == "HT";
  }

  lemma BeginOctet(m: Machine) returns (a: Machine)
    requires m.core == Init(Both, true)
    ensures Over(m, "H", a) && a == Step(m, 'H')
    ensures Is(a, m.core.(state := ResOrRespH, m := Fresh(m.core.m)), m.trace + [MessageBegin])
  {
    a := Step(m, 'H');
    assert Is(a, m.core.(state := ResOrRespH, m := Fresh(m.core.m)), m.trace + [MessageBegin]) by {
      hide StatusLineStep, UrlPhaseStep, RequestVersionStep, HeaderStep, BodyStep, OnStartReq;
      assert [Note(MessageBegin)] + [] == [Note(MessageBegin)];
      assert Interpret(m.trace, [Note(MessageBegin)], None) == Interpret(Emit(m.trace, MessageBegin), [], None);
    }
    hide Transition, Step;
    OverOctet(m, 'H');
  }

  lemma KindOctet(a: Machine) returns (w: Machine)
    requires a.core.errno.Ok? && a.core.state.ResOrRespH?
    ensures w == Step(a, 'T') && w.core.errno.Ok?
    ensures Is(w, a.core.(state := ResHT, line := a.core.line.(kind := Response)), a.trace)
  {
    hide StatusLineStep, UrlPhaseStep, RequestVersionStep, HeaderStep, BodyStep;
    w := Step(a, 'T');
  }

  /** One more quiet octet after `s`. */
  lemma QuietThen(m: Machine, s: string, a: Machine, ch: char, c: Core) returns (w: Machine)
    requires Over(m, s, a) && InStatusLine(a.core.state) && !a.core.state.ResStatus?
    requires StatusLineStep(a.core, ch) == Out(c, [], false, false) && c.errno.Ok? && !c.state.ResStatus?
    requires InStatusLine(c.state) || c.state.HeaderFieldStart?
    ensures Over(m, s + [ch], w) && Is(w, c, a.trace)
  {
    hide Transition, Step, StatusLineStep, Run;
    Quiet(a, ch, c);
    w := Step(a, ch);
    OverTrans(m, s, a, [ch], w);
  }

  lemma VersionOver(m: Machine, minor: nat) returns (w: Machine)
    requires m.core == Init(Both, true) && minor < 10
    ensures Over(m, "HTTP/1." + [DecimalDigit(minor)] + [SP], w)
    ensures Is(w, Init(Both, true).(state := ResFirstStatusCode, line := StartLine(Response, 1, minor, 0, DELETE),
                                    m := Fresh(m.core.m)),
               m.trace + [MessageBegin])
  {
    hide Over, Transition;
    w := FirstOctets(m);
    var c := w.core;
    w := QuietThen(m, "HT", w, 'T', c.(state := ResHTT));
    w := QuietThen(m, "HT" + ['T'], w, 'P', c.(state := ResHTTP));
    w := QuietThen(m, "HT" + ['T'] + ['P'], w, '/', c.(state := ResFirstHttpMajor));
    assert "HT" + ['T'] + ['P'] + ['/'] == "HTTP/";
    c := c.(line := c.line.(major := 1));
    w := QuietThen(m, "HTTP/", w, '1', c.(state := ResHttpMajor));
    w := QuietThen(m, "HTTP/" + ['1'], w, '.', c.(state := ResFirstHttpMinor));
    assert "HTTP/" + ['1'] + ['.'] == "HTTP/1.";
    c := c.(line := c.line.(minor := minor));
    w := QuietThen(m, "HTTP/1.", w, DecimalDigit(minor), c.(state := ResHttpMinor));
    w := QuietThen(m, "HTTP/1." + [DecimalDigit(minor)], w, SP, c.(state := ResFirstStatusCode));
  }

  /** The core with a status code read so far. */
  function WithStatus(c: Core, s: State, v: nat): Core { c.(state := s, line := c.line.(status := v)) }

  lemma {:induction false} CodeOver(m: Machine, n: nat) returns (w: Machine)
    requires m.core.errno.Ok? && m.core.state.ResFirstStatusCode? && n <= 999
    ensures Over(m, ToDecimal(n), w) && Is(w, WithStatus(m.core, ResStatusCode, n), m.trace)
    decreases n
  {
    hide Over, Transition, Decimal, IsDigits;
    if n < 10 {
      OverNothing(m);
      w := QuietThen(m, "", m, DecimalDigit(n), WithStatus(m.core, ResStatusCode, n));
      assert "" + [DecimalDigit(n)] == ToDecimal(n);
    } else {
      var a := CodeOver(m, n / 10);
      w := QuietThen(m, ToDecimal(n / 10), a, DecimalDigit(n % 10), WithStatus(m.core, ResStatusCode, n));
    }
  }

  /** A reason phrase that survives the wire. */
  predicate CleanReason(r: string) { r != "" && forall i :: 0 <= i < |r| ==> r[i] != CR && r[i] != LF }

  lemma ReasonFirst(m: Machine, ch: char)
    requires m.core.errno.Ok? && m.core.state.ResStatusStart? && ch != CR && ch != LF
    ensures Over(m, [ch], Step(m, ch))
    ensures Is(Step(m, ch), m.core.(state := ResStatus, m := m.core.m.(index := 0)),
               Emit(m.trace, Data(Mark.Status, [ch])))
  {
    assert Is(Step(m, ch), m.core.(state := ResStatus, m := m.core.m.(index := 0)),
              Emit(m.trace, Data(Mark.Status, [ch]))) by {
      hide StartStep, UrlPhaseStep, RequestVersionStep, HeaderStep, BodyStep, Emit;
      OneSet(m.trace, Mark.Status);
    }
    hide Transition, Step;
    OverOctet(m, ch);
  }

  lemma ReasonNext(m: Machine, ch: char)
    requires m.core.errno.Ok? && m.core.state.ResStatus? && ch != CR && ch != LF
    ensures Over(m, [ch], Step(m, ch)) && Is(Step(m, ch), m.core, Emit(m.trace, Data(Mark.Status, [ch])))
  {
    assert Is(Step(m, ch), m.core, Emit(m.trace, Data(Mark.Status, [ch]))) by {
      hide StartStep, UrlPhaseStep, RequestVersionStep, HeaderStep, BodyStep, Emit;
    }
    hide Transition, Step;
    OverOctet(m, ch);
  }

  lemma {:induction false} ReasonOver(m: Machine, s: string) returns (w: Machine)
    requires m.core.errno.Ok? && m.core.state.ResStatus? && EndsIn(m.trace, Mark.Status)
    requires forall i :: 0 <= i < |s| ==> s[i] != CR && s[i] != LF
    ensures Over(m, s, w) && Is(w, m.core, Emit(m.trace, Data(Mark.Status, s)))
    decreases |s|
  {
    hide Transition, Step, Over;
    if s == "" {
      w := m;
      OverNothing(m);
      EmitNothing(m.trace, Mark.Status);
    } else {
      ReasonNext(m, s[0]);
      var x := Step(m, s[0]);
      EmitExtend(m.trace, Mark.Status, [s[0]], s[1..]);
      w := ReasonOver(x, s[1..]);
      OverTrans(m, [s[0]], x, s[1..], w);
      assert s == [s[0]] + s[1..];
    }
  }

  lemma ReasonEnd(m: Machine)
    requires m.core.errno.Ok? && m.core.state.ResStatus? && EndsIn(m.trace, Mark.Status)
    ensures Over(m, [CR], Step(m, CR)) && Is(Step(m, CR), m.core.(state := ResLineAlmostDone), m.trace)
  {
    assert Is(Step(m, CR), m.core.(state := ResLineAlmostDone), m.trace) by {
      hide StartStep, UrlPhaseStep, RequestVersionStep, HeaderStep, BodyStep, Emit;
      OneFlush(m.trace, Mark.Status);
    }
    hide Transition, Step;
    OverOctet(m, CR);
  }

  /** `protocol() status_code() status_message()` and the line end. */
  function StatusText(minor: nat, status: nat, reason: string): string
    requires minor < 10
  {
    "HTTP/1." + [DecimalDigit(minor)] + [SP] + ToDecimal(status) + [SP] + reason + CRLF
  }

  /** The struct after a status line. */
  function AfterStatus(minor: nat, status: nat): Core {
    Init(Both, true).(state := HeaderFieldStart, line := StartLine(Response, 1, minor, status, DELETE),
                      m := Matcher(General, 0, NO_FLAGS, U64_MAX))
  }

  lemma StatusLineOver(m: Machine, minor: nat, status: nat, reason: string) returns (w: Machine)
    requires m.core == Init(Both, true) && minor < 10 && status <= 999 && CleanReason(reason)
    ensures Over(m, StatusText(minor, status, reason), w)
    ensures Is(w, AfterStatus(minor, status), m.trace + [MessageBegin, Data(Mark.Status, reason)])
  {
    hide Over, Transition, Step, ToDecimal, Emit;
    var v := "HTTP/1." + [DecimalDigit(minor)] + [SP];
    var a := VersionOver(m, minor);
    var b := CodeOver(a, status);
    OverTrans(m, v, a, ToDecimal(status), b);
    var s := v + ToDecimal(status);
    var c := QuietThen(m, s, b, SP, b.core.(state := ResStatusStart));
    s := s + [SP];
    ReasonFirst(c, reason[0]);
    var d := Step(c, reason[0]);
    StatusEnds(c.trace, [reason[0]]);
    var e := ReasonOver(d, reason[1..]);
    OverTrans(c, [reason[0]], d, reason[1..], e);
    assert [reason[0]] + reason[1..] == reason;
    EmitExtend(c.trace, Mark.Status, [reason[0]], reason[1..]);
    OverTrans(m, s, c, reason, e);
    StatusEnds(c.trace, reason);
    ReasonEnd(e);
    var f := Step(e, CR);
    OverTrans(m, s + reason, e, [CR], f);
    w := QuietThen(m, s + reason + [CR], f, LF, f.core.(state := HeaderFieldStart));
    assert s + reason + [CR] + [LF] == StatusText(minor, status, reason);
    AfterBegin(m.trace, reason);
  }

  lemma StatusEnds(tr: seq<Event>, s: string)
    ensures EndsIn(Emit(tr, Data(Mark.Status, s)), Mark.Status)
  {
  }

  lemma AfterBegin(tr: seq<Event>, s: string)
    ensures Emit(tr + [MessageBegin], Data(Mark.Status, s)) == tr + [MessageBegin, Data(Mark.Status, s)]
  {
  }
}
