/**
 The callbacks of one call of the parser, one by one.  The events of `ParserMachine`
 join adjacent data callbacks of one kind; here they are kept apart, and no call
 makes two callbacks in a row for one target.
 */
module ParserCalls {
  import opened Ascii
  import opened ParserTypes
  import opened ParserStep
  import opened ParserMachine
  import opened ParserCallbacks
  import opened ParserMarks

  /** What `Perform` calls, in order. */
  function Calls(marks: Marks, acts: seq<Act>, data: string, p: nat): seq<Event>
    requires p <= |data| && forall k :: k in marks ==> marks[k] <= p
    decreases |acts|
  {
    if acts == [] then []
    else
      match acts[0]
      case Set(k) => Calls(if k in marks then marks else marks[k := p], acts[1..], data, p)
      case Flush(k) =>
        if k in marks then [Data(k, data[marks[k]..p])] + Calls(marks - {k}, acts[1..], data, p)
        else Calls(marks, acts[1..], data, p)
      case Note(e) => [e] + Calls(marks, acts[1..], data, p)
  }

  function EmitAll(tr: seq<Event>, calls: seq<Event>): seq<Event>
    decreases |calls|
  {
    if calls == [] then tr else Emit(EmitAll(tr, calls[..|calls| - 1]), calls[|calls| - 1])
  }

  lemma {:induction false} EmitAllConcat(tr: seq<Event>, a: seq<Event>, b: seq<Event>)
    ensures EmitAll(tr, a + b) == EmitAll(EmitAll(tr, a), b)
    decreases |b|
  {
    hide Emit;
    if b == [] {
      assert a + b == a;
    } else {
      var n := |b| - 1;
      assert (a + b)[..|a| + n] == a + b[..n] && (a + b)[|a| + n] == b[n];
      EmitAllConcat(tr, a, b[..n]);
    }
  }

  lemma EmitOne(tr: seq<Event>, e: Event)
    ensures EmitAll(tr, [e]) == Emit(tr, e)
  {
    hide Emit;
    assert [e][..0] == [];
  }

  lemma {:induction false} PerformCalls(log: seq<Event>, marks: Marks, acts: seq<Act>, data: string, p: nat)
    requires p <= |data| && forall k :: k in marks ==> marks[k] <= p
    ensures Perform(log, marks, acts, data, p).0 == EmitAll(log, Calls(marks, acts, data, p))
    decreases |acts|
  {
    hide Emit, EmitAll;
    if acts == [] {
      assert EmitAll(log, []) == log by { EmitNone(log); }
    } else {
      match acts[0]
      case Set(k) => PerformCalls(log, if k in marks then marks else marks[k := p], acts[1..], data, p);
      case Flush(k) =>
        if k in marks {
          var e, rest := Data(k, data[marks[k]..p]), Calls(marks - {k}, acts[1..], data, p);
          EmitOne(log, e);
          EmitAllConcat(log, [e], rest);
          PerformCalls(Emit(log, e), marks - {k}, acts[1..], data, p);
        } else {
          PerformCalls(log, marks, acts[1..], data, p);
        }
      case Note(e) =>
        EmitOne(log, e);
        EmitAllConcat(log, [e], Calls(marks, acts[1..], data, p));
        PerformCalls(Emit(log, e), marks, acts[1..], data, p);
    }
  }

  lemma EmitNone(log: seq<Event>)
    ensures EmitAll(log, []) == log
  {
  }

  /* ---- targets --------------------------------------------------------- */

  predicate IsTarget(e: Event) { e.Data? && e.mark.Url? }

  predicate EndsInTarget(calls: seq<Event>) { calls != [] && IsTarget(calls[|calls| - 1]) }

  /** No two callbacks in a row are for a target. */
  predicate Single(calls: seq<Event>) { forall i :: 0 < i < |calls| ==> !IsTarget(calls[i - 1]) || !IsTarget(calls[i]) }

  /** A message has begun, its target not yet. */
  predicate BeforeUrl(s: State) { s.ResOrRespH? || s.ReqMethod? || s.ReqSpacesBeforeUrl? }

  /** The next callback for a target will be the first in its message and this call. */
  predicate Apart(calls: seq<Event>, marks: Marks, s: State) {
    Single(calls) && (Mark.Url in marks || BeforeUrl(s) ==> !EndsInTarget(calls))
  }

  predicate Touches(a: Act) { a == Set(Mark.Url) || a == Flush(Mark.Url) || (a.Note? && IsTarget(a.event)) }

  predicate NoneTouches(acts: seq<Act>) { forall i :: 0 <= i < |acts| ==> !Touches(acts[i]) }

  /** A call only returns early after a message. */
  predicate Finishes(o: Out) { o.exits ==> o.acts != [] && o.acts[|o.acts| - 1] == Note(MessageComplete) }

  /** A step that has nothing to do with targets. */
  predicate Aloof(o: Out) {
    NoneTouches(o.acts) && Finishes(o) && (o.core.errno.Ok? ==> !BeforeUrl(o.core.state) && !InUrl(o.core.state))
  }

  lemma ThenAloof(a: Act, o: Out)
    requires Aloof(o) && !Touches(a)
    ensures Aloof(Then([a], o))
  {
  }

  lemma CompleteAloof(c: Core, exits: bool)
    ensures Aloof(Complete(c, exits)) && Aloof(OnMessageDone(c))
  {
    hide ShouldKeepAlive;
  }

  lemma ReasonAloof(c: Core, ch: char)
    requires c.state.ResStatusStart? || c.state.ResStatus?
    ensures Aloof(StatusLineStep(c, ch))
  {
  }

  lemma StatusLineAloof(c: Core, ch: char)
    requires InStatusLine(c.state)
    ensures Aloof(StatusLineStep(c, ch))
  {
    hide IsNum, DigitValue, OnResStatusStart, OnResStatus;
    if c.state.ResStatusStart? || c.state.ResStatus? { ReasonAloof(c, ch); }
    else { assert StatusLineStep(c, ch).acts == []; }
  }

  lemma RequestVersionAloof(c: Core, ch: char)
    requires InRequestVersion(c.state)
    ensures Aloof(RequestVersionStep(c, ch))
  {
    hide IsNum, DigitValue;
  }

  lemma HeadersDoneAloof(c: Core, ch: char)
    ensures Aloof(OnHeadersDone(c, ch))
  {
    hide Complete;
    CompleteAloof(c, true);
    CompleteAloof(c, false);
  }

  lemma HeadersAlmostDoneAloof(c: Core, ch: char)
    ensures Aloof(OnHeadersAlmostDone(c, ch))
  {
    hide OnMessageDone, OnHeadersDone, ShouldKeepAlive;
    var up := (c.m.flags.upgrade && c.m.flags.connUpgrade) || c.line.verb.CONNECT?;
    CompleteAloof(c.(state := MessageDone), false);
    HeadersDoneAloof(c.(state := HeadersDone, upgrade := up), ch);
  }

  lemma FieldStartAloof(c: Core, ch: char)
    ensures Aloof(OnHeaderFieldStart(c, ch))
  {
    hide OnHeadersAlmostDone, IsToken, FirstFieldState;
    HeadersAlmostDoneAloof(c.(state := HeadersAlmostDone), ch);
  }

  lemma ValueStartAloof(c: Core, ch: char)
    ensures Aloof(OnHeaderValueStart(c, ch))
  {
    hide FirstValueByte;
  }

  lemma TextAloof(c: Core, jumped: bool, ch: char)
    requires c.state.HeaderField? || c.state.HeaderValue?
    ensures Aloof(HeaderStep(c, jumped, ch))
  {
    hide FieldByte, ValueByte, IsToken, IsHeaderChar;
  }

  lemma GapAloof(c: Core, ch: char)
    ensures Aloof(OnHeaderValueDiscardWs(c, ch)) && Aloof(OnHeaderAlmostDone(c, ch))
    ensures Aloof(Expect(c, ch, LF, HeaderValueDiscardLws))
  {
    hide OnHeaderValueStart;
    ValueStartAloof(c, ch);
  }

  lemma LineEndAloof(c: Core, ch: char)
    ensures Aloof(OnHeaderValueDiscardLws(c, ch)) && Aloof(OnHeaderValueLws(c, ch))
  {
    hide OnHeaderFieldStart, OnHeaderValueStart;
    FieldStartAloof(c.(m := TokenFlags(c.m), state := HeaderFieldStart), ch);
    ValueStartAloof(c.(state := HeaderValueStart), ch);
  }

  lemma HeaderAloof(c: Core, jumped: bool, ch: char)
    requires InHeaderBlock(c.state)
    ensures Aloof(HeaderStep(c, jumped, ch))
  {
    hide Aloof, OnHeaderFieldStart, OnHeaderValueStart, OnHeadersAlmostDone, OnHeadersDone, OnHeaderField,
      OnHeaderValue, OnHeaderValueDiscardWs, OnHeaderValueDiscardLws, OnHeaderValueLws, OnHeaderAlmostDone, Expect;
    if c.state.HeaderField? || c.state.HeaderValue? { TextAloof(c, jumped, ch); }
    else if c.state.HeadersAlmostDone? { HeadersAlmostDoneAloof(c, ch); }
    else if c.state.HeadersDone? { HeadersDoneAloof(c, ch); }
    else if c.state.HeaderFieldStart? { FieldStartAloof(c, ch); }
    else if c.state.HeaderValueStart? { ValueStartAloof(c, ch); }
    else if c.state.HeaderValueDiscardLws? || c.state.HeaderValueLws? { LineEndAloof(c, ch); }
    else { GapAloof(c, ch); }
  }

  lemma SizeAloof(c: Core, ch: char)
    requires InBody(c.state)
    ensures Aloof(OnChunkSizeStart(c, ch)) && Aloof(OnChunkSize(c, ch)) && Aloof(OnChunkParameters(c, ch))
  {
    hide Unhex, AddToLength;
  }

  lemma SizeDoneAloof(c: Core, ch: char)
    ensures Aloof(OnChunkSizeAlmostDone(c, ch))
  {
  }

  lemma ChunkAloof(c: Core, ch: char)
    ensures Aloof(OnChunkData(c, ch)) && Aloof(OnChunkDataAlmostDone(c, ch)) && Aloof(OnChunkDataDone(c, ch))
  {
    var n := Countdown(c.m);
    ThenAloof(Note(Data(Mark.Body, [ch])),
      GoMatch(c, n, if n.contentLength == 0 then ChunkDataAlmostDone else ChunkData));
    ThenAloof(Note(ChunkComplete(false)), Go(c, ChunkSizeStart));
    ThenAloof(Flush(Mark.Body), Go(c, ChunkDataDone));
  }

  lemma IdentityAloof(c: Core, ch: char)
    ensures Aloof(OnBodyIdentity(c, ch)) && Aloof(OnBodyIdentityEof(c, ch))
  {
    hide OnMessageDone;
    var d := c.(m := Countdown(c.m));
    CompleteAloof(d.(state := MessageDone), false);
    ThenAloof(Note(Data(Mark.Body, [ch])), OnMessageDone(d.(state := MessageDone)));
    ThenAloof(Note(Data(Mark.Body, [ch])), Go(d, BodyIdentity));
    ThenAloof(Note(Data(Mark.Body, [ch])), Go(c, BodyIdentityEof));
  }

  lemma BodyAloof(c: Core, ch: char)
    requires InBody(c.state)
    ensures Aloof(BodyStep(c, ch))
  {
    hide Aloof, OnMessageDone, OnChunkSizeStart, OnChunkSize, OnChunkParameters, OnChunkSizeAlmostDone, OnChunkData,
      OnChunkDataAlmostDone, OnChunkDataDone, OnBodyIdentity, OnBodyIdentityEof;
    SizeAloof(c, ch);
    SizeDoneAloof(c, ch);
    ChunkAloof(c, ch);
    IdentityAloof(c, ch);
    CompleteAloof(c, false);
  }

  /** The start of a message: a target is marked after the method, and nowhere else. */
  predicate Starts(s: State, o: Out) {
    && (o.acts == [] || o.acts == [Note(MessageBegin)] || (s.ReqSpacesBeforeUrl? && o.acts == [Set(Mark.Url)]))
    && (o.core.errno.Ok? && InUrl(o.core.state) ==> s.ReqSpacesBeforeUrl?)
    && (o.core.errno.Ok? && BeforeUrl(o.core.state) && !BeforeUrl(s) ==> o.acts == [Note(MessageBegin)])
    && (BeforeUrl(s) && !s.ReqSpacesBeforeUrl? ==> o.acts == [])
    && !o.exits
  }

  lemma FirstActs(c: Core, ch: char, s: State)
    requires s.StartReq? || s.StartReqOrRes? || s.StartRes? || s.Dead?
    ensures Starts(s, OnStartReq(c, ch))
  {
    hide IsAlpha, FirstMethod;
  }

  lemma FirstReplyActs(c: Core, ch: char, s: State)
    requires s.StartReq? || s.StartReqOrRes? || s.StartRes? || s.Dead?
    ensures Starts(s, OnStartRes(c, ch)) && Starts(s, OnDead(c, ch))
  {
  }

  lemma EitherActs(c: Core, ch: char)
    requires c.state.StartReqOrRes?
    ensures Starts(c.state, OnStartReqOrRes(c, ch))
  {
    hide OnStartReq;
    FirstActs(c.(state := StartReq, line := c.line.(kind := Request), m := Fresh(c.m)), ch, c.state);
  }

  lemma MethodActs(c: Core, ch: char)
    ensures c.state.ReqMethod? ==> Starts(c.state, OnReqMethod(c, ch))
    ensures c.state.ResOrRespH? ==> Starts(c.state, OnResOrRespH(c, ch))
  {
    hide IsAlpha, SwitchMethod, MethodString;
  }

  lemma SpacesActs(c: Core, ch: char)
    ensures c.state.ReqSpacesBeforeUrl? ==> Starts(c.state, OnReqSpacesBeforeUrl(c, ch))
  {
    hide ParseUrlChar;
  }

  lemma StartActs(c: Core, ch: char)
    requires InStart(c.state)
    ensures Starts(c.state, StartStep(c, ch))
  {
    hide Starts, OnDead, OnStartReq, OnStartRes, OnStartReqOrRes, OnResOrRespH, OnReqMethod, OnReqSpacesBeforeUrl;
    MethodActs(c, ch);
    SpacesActs(c, ch);
    if c.state.StartReqOrRes? { EitherActs(c, ch); }
    if c.state.StartReq? || c.state.StartRes? || c.state.Dead? {
      FirstActs(c, ch, c.state);
      FirstReplyActs(c, ch, c.state);
    }
  }

  lemma UrlActs(c: Core, ch: char)
    requires InUrl(c.state)
    ensures
      var o := UrlPhaseStep(c, ch);
      && (o.acts == [] || o.acts == [Flush(Mark.Url)]) && !o.exits
      && (o.core.errno.Ok? ==> !BeforeUrl(o.core.state) && (InUrl(o.core.state) ==> o.acts == []))
  {
    hide IsAlpha, IsUrlChar, IsUserinfoChar;
  }

  /* ---- one octet ------------------------------------------------------- */

  lemma {:induction false} AloofCalls(log: seq<Event>, marks: Marks, acts: seq<Act>, data: string, p: nat)
    requires p <= |data| && (forall k :: k in marks ==> marks[k] <= p) && NoneTouches(acts) && Mark.Url !in marks
    ensures Mark.Url !in Perform(log, marks, acts, data, p).1
    ensures forall i :: 0 <= i < |Calls(marks, acts, data, p)| ==> !IsTarget(Calls(marks, acts, data, p)[i])
    decreases |acts|
  {
    hide Emit, IsTarget;
    if acts != [] {
      assert !Touches(acts[0]);
      match acts[0]
      case Set(k) => AloofCalls(log, if k in marks then marks else marks[k := p], acts[1..], data, p);
      case Flush(k) =>
        OtherMark(k, data, p, marks);
        AloofCalls(if k in marks then Emit(log, Data(k, data[marks[k]..p])) else log, marks - {k}, acts[1..], data, p);
        if k !in marks { AloofCalls(log, marks, acts[1..], data, p); }
      case Note(e) => AloofCalls(Emit(log, e), marks, acts[1..], data, p);
    }
  }

  lemma OtherMark(k: Mark, data: string, p: nat, marks: Marks)
    requires !Touches(Flush(k)) && p <= |data|
    ensures k in marks && marks[k] <= p ==> !IsTarget(Data(k, data[marks[k]..p]))
  {
  }

  lemma SingleMore(calls: seq<Event>, more: seq<Event>)
    requires Single(calls) && forall i :: 0 <= i < |more| ==> !IsTarget(more[i])
    ensures Single(calls + more) && (EndsInTarget(calls + more) ==> EndsInTarget(calls) && more == [])
  {
    hide IsTarget;
    var all := calls + more;
    forall i | 0 < i < |all| ensures !IsTarget(all[i - 1]) || !IsTarget(all[i]) {
      if i >= |calls| { assert all[i] == more[i - |calls|]; }
    }
    if more != [] { assert all[|all| - 1] == more[|more| - 1]; }
  }

  lemma AloofTransition(c: Core, jumped: bool, ch: char)
    requires !InStart(c.state) && !InUrl(c.state)
    ensures Aloof(Transition(c, jumped, ch))
  {
    hide Aloof, StartStep, StatusLineStep, UrlPhaseStep, RequestVersionStep, HeaderStep, BodyStep;
    if InStatusLine(c.state) { StatusLineAloof(c, ch); }
    else if InRequestVersion(c.state) { RequestVersionAloof(c, ch); }
    else if InHeaderBlock(c.state) { HeaderAloof(c, jumped, ch); }
    else { BodyAloof(c, ch); }
  }

  lemma UrlTurn(c: Core, jumped: bool, ch: char)
    requires InUrl(c.state)
    ensures Transition(c, jumped, ch) == UrlPhaseStep(c, ch)
  {
    hide StartStep, StatusLineStep, UrlPhaseStep, RequestVersionStep, HeaderStep, BodyStep;
  }

  /** Only the state and the mark of a target matter. */
  lemma MarkedTarget(marks: Marks, log: seq<Event>, m: Machine, data: string, p: nat)
    requires Pending(marks, log, m, data, p)
    ensures Mark.Url in marks <==> InUrl(m.core.state)
    ensures InStart(m.core.state) ==> marks == map[]
  {
  }

  /** One octet keeps the callbacks for targets apart. */
  lemma OctetApart(m: Machine, log: seq<Event>, calls: seq<Event>, marks: Marks, data: string, p: nat)
    requires m.core.errno.Ok? && p < |data| && Pending(marks, log, m, data, p)
    requires forall k :: k in marks ==> marks[k] <= p
    requires Apart(calls, marks, m.core.state)
    ensures
      var o := Transition(m.core, m.jumped, data[p]);
      var more := Calls(marks, o.acts, data, p);
      && Single(calls + more)
      && (o.core.errno.Ok? ==> Apart(calls + more, Perform(log, marks, o.acts, data, p).1, o.core.state))
  {
    hide Pending, StartStep, StatusLineStep, UrlPhaseStep, RequestVersionStep, HeaderStep, BodyStep, Single,
      EndsInTarget, BeforeUrl, InUrl, InStart, Emit;
    MarkedTarget(marks, log, m, data, p);
    var c, ch := m.core, data[p];
    var o := Transition(c, m.jumped, ch);
    if InStart(c.state) {
      StartActs(c, ch);
      StartApart(log, calls, c.state, o, data, p);
    } else if InUrl(c.state) {
      UrlTurn(c, m.jumped, ch);
      UrlActs(c, ch);
      UrlApart(log, calls, marks, o, data, p);
    } else {
      AloofTransition(c, m.jumped, ch);
      AloofCalls(log, marks, o.acts, data, p);
      SingleMore(calls, Calls(marks, o.acts, data, p));
    }
  }

  lemma StartApart(log: seq<Event>, calls: seq<Event>, s: State, o: Out, data: string, p: nat)
    requires p < |data| && Single(calls) && (BeforeUrl(s) ==> !EndsInTarget(calls)) && Starts(s, o) && InStart(s)
    ensures
      var more := Calls(map[], o.acts, data, p);
      && Single(calls + more)
      && (o.core.errno.Ok? ==> Apart(calls + more, Perform(log, map[], o.acts, data, p).1, o.core.state))
  {
    hide Emit;
    assert calls + [] == calls;
    if o.acts == [] {
    } else if o.acts == [Note(MessageBegin)] {
      assert o.acts[1..] == [];
      assert Calls(map[], o.acts, data, p) == [MessageBegin] + [];
      SingleMore(calls, [MessageBegin]);
    } else {
      assert o.acts[1..] == [];
    }
  }

  lemma UrlApart(log: seq<Event>, calls: seq<Event>, marks: Marks, o: Out, data: string, p: nat)
    requires p < |data| && (forall k :: k in marks ==> marks[k] <= p) && Single(calls) && Mark.Url in marks
    requires !EndsInTarget(calls) && (o.acts == [] || o.acts == [Flush(Mark.Url)])
    requires o.core.errno.Ok? ==> !BeforeUrl(o.core.state) && (InUrl(o.core.state) ==> o.acts == [])
    ensures
      var more := Calls(marks, o.acts, data, p);
      && Single(calls + more)
      && (o.core.errno.Ok? ==> Apart(calls + more, Perform(log, marks, o.acts, data, p).1, o.core.state))
  {
    hide Emit;
    assert calls + [] == calls;
    if o.acts != [] {
      assert o.acts[1..] == [];
      assert Calls(marks, o.acts, data, p) == [Data(Mark.Url, data[marks[Mark.Url]..p])] + [];
    }
  }

  lemma ExitFinishes(c: Core, jumped: bool, ch: char)
    ensures Finishes(Transition(c, jumped, ch))
  {
    hide StartStep, StatusLineStep, UrlPhaseStep, RequestVersionStep, HeaderStep, BodyStep;
    if InStart(c.state) { StartActs(c, ch); }
    else if InUrl(c.state) { UrlTurn(c, jumped, ch); UrlActs(c, ch); }
    else { AloofTransition(c, jumped, ch); }
  }

  lemma {:induction false} LastNote(tr: seq<Event>, acts: seq<Act>, k: Option<Mark>)
    requires acts != [] && acts[|acts| - 1] == Note(MessageComplete)
    ensures Interpret(tr, acts, k) != [] && Interpret(tr, acts, k)[|Interpret(tr, acts, k)| - 1] == MessageComplete
    decreases |acts|
  {
    hide EndsWith;
    if |acts| == 1 {
      assert acts[1..] == [];
      assert Emit(tr, MessageComplete) == tr + [MessageComplete] by { PlainEmit(tr); }
    } else {
      match acts[0]
      case Set(j) => LastNote(tr, acts[1..], if k.None? then Some(j) else k);
      case Flush(j) =>
        LastNote(Emit(tr, Data(j, "")), acts[1..], None);
        LastNote(tr, acts[1..], k);
      case Note(e) => LastNote(Emit(tr, e), acts[1..], k);
    }
  }

  lemma PlainEmit(tr: seq<Event>)
    ensures Emit(tr, MessageComplete) == tr + [MessageComplete]
  {
  }

  /** When a call returns early, the last event is the end of a message. */
  lemma ExitEndsMessage(m: Machine, ch: char)
    requires Exits(m, ch) && Step(m, ch).core.errno.Ok?
    ensures Step(m, ch).trace != [] && Step(m, ch).trace[|Step(m, ch).trace| - 1] == MessageComplete
  {
    hide Transition, OpenMark, Emit, Interpret;
    ExitFinishes(m.core, m.jumped, ch);
    TransitionInOrder(m.core, m.jumped, ch);
    var o := Transition(m.core, m.jumped, ch);
    LastNote(m.trace, o.acts, OpenMark(m.core.state));
    StartIsUnmarked(o.core.state);
  }

  lemma StartIsUnmarked(s: State)
    ensures InStart(s) ==> OpenMark(s).None?
  {
  }

  /** The callbacks at the end of a buffer. */
  lemma FlushedApart(calls: seq<Event>, marks: Marks, acts: seq<Act>, data: string, p: nat)
    requires p <= |data| && (forall k :: k in marks ==> marks[k] <= p) && |marks| <= 1
    requires Single(calls) && (Mark.Url in marks ==> !EndsInTarget(calls))
    requires forall i :: 0 <= i < |acts| ==> acts[i].Flush?
    ensures Single(calls + Calls(marks, acts, data, p))
    decreases |acts|
  {
    if acts == [] || marks == map[] {
      NoMarks(acts, data, p);
      assert calls + [] == calls;
    } else if acts[0].mark !in marks {
      FlushedApart(calls, marks, acts[1..], data, p);
    } else {
      var k := acts[0].mark;
      assert marks.Keys == {k} by { OneKey(marks, k); }
      assert marks - {k} == map[];
      NoMarks(acts[1..], data, p);
      var e := Data(k, data[marks[k]..p]);
      assert Calls(marks, acts, data, p) == [e] + [];
      assert calls + [e] == calls + Calls(marks, acts, data, p);
    }
  }

  lemma OneKey(marks: Marks, k: Mark)
    requires k in marks && |marks| <= 1
    ensures marks.Keys == {k}
  {
    assert |marks.Keys| == |marks|;
    assert |marks.Keys - {k}| == |marks.Keys| - 1 == 0;
  }

  lemma {:induction false} NoMarks(acts: seq<Act>, data: string, p: nat)
    requires p <= |data| && forall i :: 0 <= i < |acts| ==> acts[i].Flush?
    ensures Calls(map[], acts, data, p) == []
    decreases |acts|
  {
    if acts != [] { NoMarks(acts[1..], data, p); }
  }
}
