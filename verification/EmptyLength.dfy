/**
 `header` of the message object converts the value of a Content-Length, and throws where
 it finds no number; what that means for values that the parser accepts.
 */
module EmptyLength {
  import opened Ascii
  import opened Numerals
  import opened ParserTypes
  import opened ParserStep
  import opened ParserMachine
  import opened ParserWords
  import opened FieldNames
  import opened FieldValues
  import opened HeaderLines
  import opened MessageEnds
  import opened FirstLines
  import opened HttpDecoder
  import opened Additions
  import opened Decoding
  import opened Telling

  lemma {:induction false} RunOfPart(m: Matcher, a: string, b: string)
    requires ValueRun(m, a + b).errno.Ok?
    ensures ValueRun(m, a).errno.Ok?
    decreases |a|
  {
    hide ValueByte;
    if a != "" {
      assert (a + b)[0] == a[0] && (a + b)[1..] == a[1..] + b;
      RunOfPart(ValueByte(m, a[0]).m, a[1..], b);
    }
  }

  /** An accepted length begins with digits, and they fit 64 bits. */
  lemma AcceptedIsNumeric(m: Matcher, v: string)
    requires m.hs.HContentLength? && v != "" && ValueOf(m, v).errno.Ok?
    ensures Numeric(v)
  {
    hide ValueRun, Decimal;
    assert IsNum(v[0]);
    var n := U.DigitsUpTo(v, 0);
    var u := v[0..n];
    assert n > 0 && u[0] == v[0];
    assert u[1..] + v[n..] == v[1..];
    RunOfPart(FirstValueByte(m, v[0]).m, u[1..], v[n..]);
    LengthIsExact(m, u);
    assert SkipSpace(v) == v;
  }

  lemma NothingIsNotNumeric()
    ensures !Numeric("")
  {
  }

  lemma LengthIsContentLength(k: string)
    requires CleanKey(k) && LowerName(k) == CONTENT_LENGTH
    ensures LowerCase(k) == "content-length"
  {
    assert forall i :: 0 <= i < |k| ==> LowerCase(k)[i] == LowerName(k)[i];
    assert CONTENT_LENGTH == "content-length";
  }

  lemma NameIsLength(m: Matcher, k: string)
    requires CleanKey(k) && LowerName(k) == CONTENT_LENGTH && Name(m, k).errno.Ok?
    ensures Name(m, k).m.hs.HContentLength?
  {
    hide Name, LowerName;
    NameMeans(m, k, HContentLength);
  }

  /** Of a Content-Length that the parser accepts on one line, `header` throws at the empty one only. */
  lemma AcceptedLengths(m: Matcher, k: string, v: string)
    requires CleanKey(k) && LowerName(k) == CONTENT_LENGTH && LineMatcher(m, k, v).errno.Ok?
    ensures Takes(k, v) <==> v != ""
  {
    hide Name, ValueOf, Numeric, LowerName, LowerCase, IsToken;
    LengthIsContentLength(k);
    NothingIsNotNumeric();
    if v != "" {
      NameIsLength(m, k);
      AcceptedIsNumeric(Name(m, k).m, v);
    }
  }

  /* ---- a request with an empty Content-Length --------------------------- */

  const NAME: string := "content-length"

  function EmptyLengthText(f: FirstLine): string
    requires f.minor < 10
  {
    LineText(f) + (NAME + ": " + "" + CRLF + CRLF)
  }

  lemma NameIsName()
    ensures CleanKey(NAME) && LowerName(NAME) == CONTENT_LENGTH
  {
    assert forall i :: 0 <= i < |NAME| ==> IsToken(NAME[i]) && TokenLower(NAME[i]) == NAME[i];
  }

  /** Its header block announces nothing. */
  lemma EmptyAnnounces(f: FirstLine)
    requires f.Ask?
    ensures CleanKey(NAME) && LineMatcher(LineEnd(f), NAME, "").errno.Ok?
    ensures
      var c := AfterLine(f).(m := LineMatcher(LineEnd(f), NAME, "").m);
      Announces(c) && !Bodied(c.m)
  {
    NameIsName();
    var m := LineEnd(f);
    NameFlags(m, NAME);
    NameMeans(m, NAME, HContentLength);
    hide Name, LowerName, IsToken, MethodString;
  }

  /** What is held when the line has been read. */
  lemma EmptyHeld(v: Version, out: seq<Notice>, f: FirstLine, e: Event)
    requires f.Ask? && e.HeadersComplete?
    ensures
      var es := [MessageBegin, LineData(f), Data(Field, NAME), Data(Value, ""), e, MessageComplete];
      !AllTolerated(Empty(true, v, out), es)
  {
    hide L.OnTarget, TargetOf;
    var h := Empty(true, v, out);
    var es := [MessageBegin, LineData(f), Data(Field, NAME), Data(Value, ""), e, MessageComplete];
    var a, b := [MessageBegin, LineData(f)], [Data(Field, NAME), Data(Value, "")];
    assert es[..4] == a + b;
    DeliverTwo(h, a[0], a[1]);
    DeliverTwo(DeliverAll(h, a), b[0], b[1]);
    DeliverConcat(h, a, b);
    assert "" + NAME == NAME;
    NameIsName();
    LengthIsContentLength(NAME);
    NothingIsNotNumeric();
    hide AllTolerated, DeliverAll, Numeric;
    ToleratedAt(h, es, 4);
  }

  /** Its header block is read. */
  lemma EmptyBlockOver(a: Machine, f: FirstLine) returns (w: Machine, e: Event)
    requires a.core == AfterLine(f) && f.Ask? && !EndsIn(a.trace, Field)
    ensures Over(a, NAME + ": " + "" + CRLF + CRLF, w) && e.HeadersComplete?
    ensures w.trace == a.trace + [Data(Field, NAME), Data(Value, "")] + [e, MessageComplete]
  {
    hide Over, Transition, Step, LineMatcher, Emit, CleanKey, Announces, ShouldKeepAlive, Trimmed, Completed,
      LineEvents, EndsIn;
    EmptyAnnounces(f);
    var ps := [(NAME, "")];
    ReadOneEmpty();
    OneMatcher(a.core.m, ps);
    var b := BlockOver(a, ps);
    var c := Settle(b);
    w := HeadBlankOver(c);
    assert CRLF[0] == CR;
    OverSettled(b, CRLF, w);
    OverTrans(a, Lines(ps), b, CRLF, w);
    e := HeadersComplete(Upgraded(c.core).line, ShouldKeepAlive(Upgraded(c.core).line, Upgraded(c.core).m));
  }

  lemma OneMatcher(m: Matcher, ps: Pairs)
    requires |ps| == 1 && CleanPairs(ps)
    ensures LineMatcher(m, ps[0].0, ps[0].1).errno.Ok? ==> BlockMatcher(m, ps) == LineMatcher(m, ps[0].0, ps[0].1)
  {
    hide LineMatcher, CleanKey, CleanValue;
    assert ps[1..] == [] && BlockMatcher(LineMatcher(m, ps[0].0, ps[0].1).m, [])
      == Now(LineMatcher(m, ps[0].0, ps[0].1).m);
  }

  /** The request is read. */
  lemma EmptyLengthOver(m: Machine, f: FirstLine) returns (w: Machine, e: Event)
    requires m.core == Init(Both, true) && CleanLine(f) && f.Ask?
    ensures f.minor < 10 && Over(m, EmptyLengthText(f), w) && e.HeadersComplete?
    ensures w.trace ==
      m.trace + [MessageBegin, LineData(f)] + [Data(Field, NAME), Data(Value, "")] + [e, MessageComplete]
  {
    LineIsPlain(f);
    hide Transition, Step, LineText, CleanLine, LineData, Run, AfterLine, Over;
    var a := FirstLineOver(m, f);
    LineIsLast(m.trace, f);
    w, e := EmptyBlockOver(a, f);
    OverTrans(m, LineText(f), a, NAME + ": " + "" + CRLF + CRLF, w);
  }

  /** The parser reads such a request to its end, and the receiver throws at the end of its header block. */
  lemma EmptyLengthThrows(v: Version, out: seq<Notice>, m: Machine, f: FirstLine)
    requires m.core == Init(Both, true) && CleanLine(f) && f.Ask?
    ensures f.minor < 10
    ensures
      var w := Run(m, EmptyLengthText(f)).m;
      w.core.errno.Ok? && w.trace != [] && w.trace[|w.trace| - 1] == MessageComplete
      && !Unopposed(Empty(true, v, out), m, w)
  {
    hide Transition, Step, LineText, CleanLine, LineData, Empty, AllTolerated, DeliverAll, Extends, Added, Run;
    var w, e := EmptyLengthOver(m, f);
    var es := [MessageBegin, LineData(f), Data(Field, NAME), Data(Value, ""), e, MessageComplete];
    InOne(m.trace, [MessageBegin, LineData(f)], [Data(Field, NAME), Data(Value, "")], [e, MessageComplete]);
    assert es == [MessageBegin, LineData(f)] + [Data(Field, NAME), Data(Value, "")] + [e, MessageComplete];
    EmptyHeld(v, out, f, e);
    AddedAppend(m.trace, es);
  }

  lemma InOne(tr: seq<Event>, a: seq<Event>, b: seq<Event>, c: seq<Event>)
    ensures tr + a + b + c == tr + (a + b + c) && (c != [] ==> (tr + (a + b + c))[|tr + (a + b + c)| - 1] == c[|c| - 1])
  {
  }

  lemma LineIsLast(tr: seq<Event>, f: FirstLine)
    requires f.Ask?
    ensures !EndsIn(tr + [MessageBegin, LineData(f)], Field)
  {
  }

  lemma ReadOneEmpty()
    ensures CleanPairs([(NAME, "")]) && AsRead([(NAME, "")]) == [(NAME, "")]
    ensures LineEvents([(NAME, "")]) == [Data(Field, NAME), Data(Value, "")]
    ensures Lines([(NAME, "")]) == NAME + ": " + "" + CRLF
  {
    var ps := [(NAME, "")];
    NameIsName();
    assert ps[1..] == [] && Trimmed("") == "";
  }
}
