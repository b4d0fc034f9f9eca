/**
 The order of the callbacks in one step of the parser: a callback is only made
 while no other mark is open, and a step leaves open exactly the mark that the
 next call to `http_parser_execute` would set on entry.
 */
module ParserCallbacks {
  import opened Ascii
  import opened ParserTypes
  import opened ParserStep
  import opened ParserMachine

  /** The mark left open by a list of actions, or `Bad` when their order is wrong. */
  datatype Left = Bad | Open(mark: Option<Mark>)

  function LeftBy(acts: seq<Act>, k: Option<Mark>): Left
    decreases |acts|
  {
    if acts == [] then Open(k)
    else
      match acts[0]
      case Set(j) => if k.None? then LeftBy(acts[1..], Some(j)) else Bad
      case Flush(j) => if k == Some(j) || (k.None? && j.Body?) then LeftBy(acts[1..], None) else Bad
      case Note(_) => if k.None? then LeftBy(acts[1..], None) else Bad
  }

  /** A step that starts with `k` open is in order and ends with the resumable mark open. */
  predicate InOrder(k: Option<Mark>, o: Out) {
    var l := LeftBy(o.acts, k);
    && l.Open? && (o.core.errno.Ok? ==> l.mark == OpenMark(o.core.state))
    && (o.exits ==> InStart(o.core.state))
  }

  lemma {:induction false} LeftByConcat(a: seq<Act>, b: seq<Act>, k: Option<Mark>)
    requires LeftBy(a, k).Open?
    ensures LeftBy(a + b, k) == LeftBy(b, LeftBy(a, k).mark)
    decreases |a|
  {
    if a == [] {
      assert a + b == b;
    } else {
      assert (a + b)[1..] == a[1..] + b;
      LeftByConcat(a[1..], b, if a[0].Set? then Some(a[0].mark) else None);
    }
  }

  /** A quiet step: no callback, and the same mark open before and after. */
  lemma QuietInOrder(k: Option<Mark>, o: Out)
    requires o.acts == [] && !o.exits && (o.core.errno.Ok? ==> OpenMark(o.core.state) == k)
    ensures InOrder(k, o)
  {
    hide InUrl;
  }

  lemma ThenInOrder(acts: seq<Act>, k: Option<Mark>, j: Option<Mark>, o: Out)
    requires LeftBy(acts, k) == Open(j) && InOrder(j, o)
    ensures InOrder(k, Then(acts, o))
  {
    hide OpenMark;
    LeftByConcat(acts, o.acts, k);
  }

  lemma NoteInOrder(e: Event, o: Out)
    requires InOrder(None, o)
    ensures InOrder(None, Then([Note(e)], o))
  {
    hide OpenMark;
    assert LeftBy([Note(e)], None) == LeftBy([], None);
    ThenInOrder([Note(e)], None, None, o);
  }

  lemma SetInOrder(k: Mark, o: Out)
    requires InOrder(Some(k), o)
    ensures InOrder(None, Then([Set(k)], o))
  {
    hide OpenMark;
    assert LeftBy([Set(k)], None) == LeftBy([], Some(k));
    ThenInOrder([Set(k)], None, Some(k), o);
  }

  lemma FlushInOrder(k: Mark, o: Out)
    requires InOrder(None, o)
    ensures InOrder(Some(k), Then([Flush(k)], o)) && (k.Body? ==> InOrder(None, Then([Flush(k)], o)))
  {
    hide OpenMark;
    assert LeftBy([Flush(k)], Some(k)) == LeftBy([], None);
    ThenInOrder([Flush(k)], Some(k), None, o);
    if k.Body? {
      assert LeftBy([Flush(k)], None) == LeftBy([], None);
      ThenInOrder([Flush(k)], None, None, o);
    }
  }

  lemma UrlStepInOrder(c: Core, ch: char)
    requires InUrl(c.state) || c.state.ReqSpacesBeforeUrl?
    ensures InOrder(Some(Mark.Url), UrlStep(c, ch))
  {
  }

  lemma StartReqInOrder(c: Core, ch: char)
    ensures InOrder(None, OnStartReq(c, ch))
  {
  }

  lemma StartResInOrder(c: Core, ch: char)
    ensures InOrder(None, OnStartRes(c, ch)) && InOrder(None, OnStartReqOrRes(c, ch))
  {
    hide OnStartReq;
    NoteInOrder(MessageBegin, GoMatch(c, Fresh(c.m), ResOrRespH));
    NoteInOrder(MessageBegin, GoMatch(c, Fresh(c.m), ResH));
    NoteInOrder(MessageBegin, GoMatch(c, Fresh(c.m), StartRes));
    StartReqInOrder(c.(state := StartReq, line := c.line.(kind := Request), m := Fresh(c.m)), ch);
  }

  lemma MethodInOrder(c: Core, ch: char)
    ensures InOrder(None, OnReqMethod(c, ch))
  {
    hide SwitchMethod, MethodString;
  }

  lemma StartInOrder(c: Core, ch: char)
    requires InStart(c.state)
    ensures InOrder(None, StartStep(c, ch))
  {
    MethodInOrder(c, ch);
    hide OnReqMethod, OnStartReq, OnStartRes, OnStartReqOrRes, UrlStep;
    StartResInOrder(c, ch);
    StartReqInOrder(c, ch);
    if c.state.ReqSpacesBeforeUrl? && ch != SP {
      var d := if c.line.verb.CONNECT? then c.(state := ReqServerStart) else c;
      UrlStepInOrder(d, ch);
      SetInOrder(Mark.Url, UrlStep(d, ch));
    }
  }

  lemma ReasonInOrder(c: Core, ch: char)
    requires c.state.ResStatusStart? || c.state.ResStatus?
    ensures InOrder(OpenMark(c.state), StatusLineStep(c, ch))
  {
  }

  lemma VersionInOrder(c: Core, ch: char)
    requires c.state.ResHTTP? || c.state.ResFirstHttpMajor? || c.state.ResHttpMajor?
          || c.state.ResFirstHttpMinor? || c.state.ResHttpMinor?
    ensures InOrder(None, StatusLineStep(c, ch))
  {
    hide IsNum, DigitValue, InOrder;
    QuietInOrder(None, StatusLineStep(c, ch));
  }

  lemma StatusLineInOrder(c: Core, ch: char)
    requires InStatusLine(c.state)
    ensures InOrder(OpenMark(c.state), StatusLineStep(c, ch))
  {
    hide OnResStatusStart, OnResStatus, IsNum, DigitValue, InOrder;
    if c.state.ResStatusStart? || c.state.ResStatus? {
      ReasonInOrder(c, ch);
    } else if c.state.ResHTTP? || c.state.ResFirstHttpMajor? || c.state.ResHttpMajor?
           || c.state.ResFirstHttpMinor? || c.state.ResHttpMinor? {
      VersionInOrder(c, ch);
    } else {
      QuietInOrder(None, StatusLineStep(c, ch));
    }
  }

  lemma UrlInOrder(c: Core, ch: char)
    requires InUrl(c.state)
    ensures InOrder(Some(Mark.Url), UrlPhaseStep(c, ch))
  {
    hide UrlStep;
    UrlStepInOrder(c, ch);
    FlushInOrder(Mark.Url, Go(c, ReqHttpStart));
    FlushInOrder(Mark.Url, GoLine(c, c.line.(major := 0, minor := 9), ReqLineAlmostDone));
    FlushInOrder(Mark.Url, GoLine(c, c.line.(major := 0, minor := 9), HeaderFieldStart));
  }

  lemma RequestVersionInOrder(c: Core, ch: char)
    requires InRequestVersion(c.state)
    ensures InOrder(None, RequestVersionStep(c, ch))
  {
    hide InOrder;
    QuietInOrder(None, RequestVersionStep(c, ch));
  }

  lemma CompleteInOrder(c: Core, exits: bool)
    ensures InOrder(None, Complete(c, exits)) && InOrder(None, OnMessageDone(c))
  {
  }

  lemma HeadersDoneInOrder(c: Core, ch: char)
    ensures InOrder(None, OnHeadersDone(c, ch))
  {
    hide Complete;
    CompleteInOrder(c, true);
    CompleteInOrder(c, false);
  }

  lemma HeadersAlmostDoneInOrder(c: Core, ch: char)
    ensures InOrder(None, OnHeadersAlmostDone(c, ch))
  {
    hide OnMessageDone, OnHeadersDone;
    var done := c.(state := MessageDone);
    var up := (c.m.flags.upgrade && c.m.flags.connUpgrade) || c.line.verb.CONNECT?;
    var next := c.(state := HeadersDone, upgrade := up);
    CompleteInOrder(done, false);
    HeadersDoneInOrder(next, ch);
    NoteInOrder(ChunkComplete(true), OnMessageDone(done));
    NoteInOrder(HeadersComplete(c.line, ShouldKeepAlive(c.line, c.m)), OnHeadersDone(next, ch));
  }

  lemma FieldStartInOrder(c: Core, ch: char)
    ensures InOrder(None, OnHeaderFieldStart(c, ch))
  {
    hide OnHeadersAlmostDone;
    HeadersAlmostDoneInOrder(c.(state := HeadersAlmostDone), ch);
    if IsToken(ch) {
      SetInOrder(Field, GoMatch(c, c.m.(index := 0, hs := FirstFieldState(TokenLower(ch))), HeaderField));
    }
  }

  lemma ValueStartInOrder(c: Core, ch: char)
    ensures InOrder(None, OnHeaderValueStart(c, ch))
  {
    hide FirstValueByte;
    SetInOrder(Value, Put(c.(state := HeaderValue), FirstValueByte(c.m, ch)));
  }

  lemma EmptyValueInOrder(o: Out)
    requires InOrder(None, o)
    ensures InOrder(None, Then([Set(Value), Flush(Value)], o))
  {
    hide OpenMark;
    FlushInOrder(Value, o);
    SetInOrder(Value, Then([Flush(Value)], o));
    assert [Set(Value)] + ([Flush(Value)] + o.acts) == [Set(Value), Flush(Value)] + o.acts;
  }

  lemma TextInOrder(c: Core, jumped: bool, ch: char)
    requires c.state.HeaderField? || c.state.HeaderValue?
    ensures InOrder(OpenMark(c.state), HeaderStep(c, jumped, ch))
  {
    hide FieldByte, ValueByte;
    FlushInOrder(Field, Go(c, HeaderValueDiscardWs));
    FlushInOrder(Value, Go(c, HeaderAlmostDone));
    FlushInOrder(Value, OnHeaderAlmostDone(c.(state := HeaderAlmostDone), LF));
  }

  lemma GapInOrder(c: Core, ch: char)
    ensures InOrder(None, OnHeaderValueDiscardWs(c, ch)) && InOrder(None, OnHeaderAlmostDone(c, ch))
    ensures InOrder(None, Expect(c, ch, LF, HeaderValueDiscardLws))
  {
    hide OnHeaderValueStart;
    ValueStartInOrder(c, ch);
  }

  lemma LineEndInOrder(c: Core, ch: char)
    ensures InOrder(None, OnHeaderValueDiscardLws(c, ch)) && InOrder(None, OnHeaderValueLws(c, ch))
  {
    hide OnHeaderFieldStart, OnHeaderValueStart;
    var next := c.(m := TokenFlags(c.m), state := HeaderFieldStart);
    FieldStartInOrder(next, ch);
    EmptyValueInOrder(OnHeaderFieldStart(next, ch));
    ValueStartInOrder(c.(state := HeaderValueStart), ch);
  }

  lemma HeaderInOrder(c: Core, jumped: bool, ch: char)
    requires InHeaderBlock(c.state)
    ensures InOrder(OpenMark(c.state), HeaderStep(c, jumped, ch))
  {
    hide InOrder, OnHeaderFieldStart, OnHeaderValueStart, OnHeadersAlmostDone, OnHeadersDone, OnHeaderField,
      OnHeaderValue, OnHeaderValueDiscardWs, OnHeaderValueDiscardLws, OnHeaderValueLws, OnHeaderAlmostDone, Expect;
    if c.state.HeaderField? || c.state.HeaderValue? { TextInOrder(c, jumped, ch); }
    else if c.state.HeadersAlmostDone? { HeadersAlmostDoneInOrder(c, ch); }
    else if c.state.HeadersDone? { HeadersDoneInOrder(c, ch); }
    else if c.state.HeaderFieldStart? { FieldStartInOrder(c, ch); }
    else if c.state.HeaderValueStart? { ValueStartInOrder(c, ch); }
    else if c.state.HeaderValueDiscardLws? || c.state.HeaderValueLws? { LineEndInOrder(c, ch); }
    else { GapInOrder(c, ch); }
  }

  lemma SizeDoneInOrder(c: Core, ch: char)
    ensures InOrder(None, OnChunkSizeAlmostDone(c, ch))
  {
    var next := if c.m.contentLength == 0
      then GoMatch(c, c.m.(flags := c.m.flags.(trailing := true)), HeaderFieldStart) else Go(c, ChunkData);
    NoteInOrder(ChunkHeader(c.m.contentLength, false), next);
  }

  lemma ChunkDataInOrder(c: Core, ch: char)
    ensures InOrder(None, OnChunkData(c, ch)) && InOrder(None, OnChunkDataAlmostDone(c, ch))
    ensures InOrder(None, OnChunkDataDone(c, ch))
  {
    var n := Countdown(c.m);
    NoteInOrder(Data(Mark.Body, [ch]), GoMatch(c, n, if n.contentLength == 0 then ChunkDataAlmostDone else ChunkData));
    NoteInOrder(ChunkComplete(false), Go(c, ChunkSizeStart));
    FlushInOrder(Mark.Body, Go(c, ChunkDataDone));
  }

  lemma ChunkSizeInOrder(c: Core, ch: char)
    requires c.state.ChunkSizeStart? || c.state.ChunkSize? || c.state.ChunkParameters?
    ensures InOrder(None, BodyStep(c, ch))
  {
    hide Unhex, AddToLength;
  }

  lemma ChunkInOrder(c: Core, ch: char)
    requires InChunk(c.state)
    ensures InOrder(None, BodyStep(c, ch))
  {
    hide InOrder, OnChunkSizeAlmostDone, OnChunkData, OnChunkDataAlmostDone, OnChunkDataDone, OnChunkSizeStart,
      OnChunkSize, OnChunkParameters;
    if c.state.ChunkSizeStart? || c.state.ChunkSize? || c.state.ChunkParameters? { ChunkSizeInOrder(c, ch); }
    else if c.state.ChunkSizeAlmostDone? { SizeDoneInOrder(c, ch); }
    else { ChunkDataInOrder(c, ch); }
  }

  lemma BodyInOrder(c: Core, ch: char)
    requires InBody(c.state)
    ensures InOrder(None, BodyStep(c, ch))
  {
    hide OnMessageDone;
    if InChunk(c.state) {
      ChunkInOrder(c, ch);
    } else {
      var d := c.(m := Countdown(c.m), state := MessageDone);
      CompleteInOrder(c, false);
      CompleteInOrder(d, false);
      NoteInOrder(Data(Mark.Body, [ch]), OnMessageDone(d));
    }
  }

  /** At most one mark is ever open, and it is the one that the state resumes. */
  lemma TransitionInOrder(c: Core, jumped: bool, ch: char)
    ensures InOrder(OpenMark(c.state), Transition(c, jumped, ch))
  {
    hide InOrder, StartStep, StatusLineStep, UrlPhaseStep, RequestVersionStep, HeaderStep, BodyStep;
    if InStart(c.state) { StartInOrder(c, ch); }
    else if InStatusLine(c.state) { StatusLineInOrder(c, ch); }
    else if InUrl(c.state) { UrlInOrder(c, ch); }
    else if InRequestVersion(c.state) { RequestVersionInOrder(c, ch); }
    else if InHeaderBlock(c.state) { HeaderInOrder(c, jumped, ch); }
    else { BodyInOrder(c, ch); }
  }
}
