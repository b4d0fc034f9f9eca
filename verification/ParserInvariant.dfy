/**
 The inductive invariant of the parser: whatever octets arrive, the assertions
 of the C code hold, its fields stay inside their widths, and a resumed data
 callback continues the one before it.
 */
module ParserInvariant {
  import opened Ascii
  import opened ParserTypes
  import opened ParserStep
  import opened ParserMachine

  /* ---- matchers ------------------------------------------------------- */

  /** States in which a matcher is not inside a word. */
  predicate Idle(h: HeaderState) {
    Word(h) == "" && !h.HC? && !h.HCO? && !h.HCON? && !h.MatchingTokenStart?
  }

  lemma AdvanceReady(m: Matcher, c: char, done: HeaderState, miss: HeaderState)
    requires Word(m.hs) != "" && Positioned(m) && Idle(done) && Idle(miss)
    ensures
      var a := Advance(m, Word(m.hs), c, done, miss);
      Positioned(a) && a.index < 20 && a.contentLength == m.contentLength
        && (a.hs == m.hs || a.hs == done || a.hs == miss)
  {
  }

  /**
   The guard on the accumulated length: a digit that is accepted is added
   exactly, without wrapping, and never makes the length look like the
   "no length" sentinel.
   */
  lemma AddToLengthExact(m: Matcher, base: nat, d: nat)
    requires (base == 10 || base == 16) && d < base
    ensures
      var r := AddToLength(m, base, d);
      && (r.errno.Ok? <==> m.contentLength * base + base <= U64_MAX)
      && (r.errno.Ok? ==> r.m == m.(contentLength := m.contentLength * base + d)
                          && r.m.contentLength < U64_MAX)
      && (m.contentLength * base + d >= U64_MAX ==> !r.errno.Ok?)
  {
  }

  lemma FieldByteReady(m: Matcher, ch: char)
    requires IsToken(ch) && MatcherFits(m) && FieldReady(m)
    ensures FieldByte(m, ch).errno.Ok? ==> MatcherFits(FieldByte(m, ch).m) && FieldReady(FieldByte(m, ch).m)
  {
  }

  lemma FirstValueByteReady(m: Matcher, ch: char)
    requires MatcherFits(m)
    ensures FirstValueByte(m, ch).errno.Ok? ==>
      MatcherFits(FirstValueByte(m, ch).m) && ValueReady(FirstValueByte(m, ch).m)
  {
  }

  lemma ValueByteReady(m: Matcher, ch: char)
    requires MatcherFits(m) && ValueReady(m)
    ensures ValueByte(m, ch).errno.Ok? ==> MatcherFits(ValueByte(m, ch).m) && ValueReady(ValueByte(m, ch).m)
  {
    hide Advance;
    hide Lower, AddToLength;
    var l := Lower(ch);
    if IsNum(ch) { AddToLengthExact(m, 10, DigitValue(ch)); }
    if m.hs.MatchingChunked? { AdvanceReady(m, l, HChunked, General); }
    else if m.hs.MatchingKeepAlive? { AdvanceReady(m, l, HKeepAlive, MatchingToken); }
    else if m.hs.MatchingClose? { AdvanceReady(m, l, HClose, MatchingToken); }
    else if m.hs.MatchingConnUpgrade? { AdvanceReady(m, l, HConnUpgrade, MatchingToken); }
  }

  /* ---- the struct ----------------------------------------------------- */

  predicate EndsInBody(a: Act) { a.Note? && a.event.Data? && a.event.mark.Body? }

  /** What a step must leave behind, unless it fails. */
  predicate Keeps(o: Out) {
    o.core.errno.Ok? ==>
      && CoreInv(o.core)
      && (o.core.state.ChunkSizeStart? ==> o.clears)
      && (o.core.state.ChunkDataAlmostDone? ==>
            o.acts != [] && EndsInBody(o.acts[|o.acts| - 1]))
  }

  /** The states that `Sound` says nothing about. */
  predicate Plain(s: State) {
    !s.ReqMethod? && !s.HeaderField? && !s.HeaderValue? && !s.BodyIdentity? && !InChunk(s)
  }

  predicate PlainOut(o: Out) {
    o.core.errno.Ok? ==> LineFits(o.core.line) && MatcherFits(o.core.m) && Plain(o.core.state)
  }

  lemma PlainOutKeeps(o: Out)
    requires PlainOut(o)
    ensures Keeps(o)
  {
    hide FieldReady, ValueReady, MethodString;
  }

  lemma StartReqKeeps(c: Core, ch: char)
    requires LineFits(c.line) && MatcherFits(c.m)
    ensures Keeps(OnStartReq(c, ch))
  {
    hide FieldReady, ValueReady;
  }

  lemma SwitchFits(v: Method, pos: nat, ch: char)
    ensures
      var s := SwitchMethod(v, pos, ch);
      s.Some? ==> pos < |MethodString(s.value)|
  {
  }

  lemma MethodLength(v: Method)
    ensures |MethodString(v)| < 12 && |MethodString(MSEARCH)| == 8
  {
  }

  lemma MethodKeeps(c: Core, ch: char)
    requires LineFits(c.line) && MatcherFits(c.m) && c.m.index <= |MethodString(c.line.verb)|
    ensures Keeps(OnReqMethod(c, ch))
  {
    hide FieldReady, ValueReady, SwitchMethod, MethodString;
    SwitchFits(c.line.verb, c.m.index, ch);
    MethodLength(c.line.verb);
    assert PlainOut(OnReqMethod(c, ch)) || OnReqMethod(c, ch).core.state.ReqMethod?;
  }

  lemma StartKeeps(c: Core, ch: char)
    requires c.errno.Ok? && CoreInv(c) && InStart(c.state)
    ensures Keeps(StartStep(c, ch))
  {
    hide OnStartReq, OnReqMethod, OnReqSpacesBeforeUrl, FieldReady, ValueReady, Keeps, MethodString;
    if c.state.ReqMethod? { MethodKeeps(c, ch); }
    else if c.state.ReqSpacesBeforeUrl? { SpacesKeeps(c, ch); }
    else if c.state.StartReq? { StartReqKeeps(c, ch); }
    else if c.state.ResOrRespH? { EitherKeeps(c, ch); }
    else if c.state.StartReqOrRes? && ch != CR && ch != LF && ch != 'H' {
      StartReqKeeps(c.(state := StartReq, line := c.line.(kind := Request), m := Fresh(c.m)), ch);
    } else {
      PlainOutKeeps(StartStep(c, ch));
    }
  }

  lemma EitherKeeps(c: Core, ch: char)
    requires LineFits(c.line) && MatcherFits(c.m)
    ensures Keeps(OnResOrRespH(c, ch))
  {
    hide FieldReady, ValueReady;
  }

  lemma SpacesKeeps(c: Core, ch: char)
    requires LineFits(c.line) && MatcherFits(c.m) && c.state.ReqSpacesBeforeUrl?
    ensures Keeps(OnReqSpacesBeforeUrl(c, ch))
  {
    hide Keeps;
    PlainOutKeeps(OnReqSpacesBeforeUrl(c, ch));
  }

  lemma MajorPlain(c: Core, ch: char, next: State)
    requires LineFits(c.line) && MatcherFits(c.m)
    requires (c.state.ResHttpMajor? && next.ResFirstHttpMinor?) || (c.state.ReqHttpMajor? && next.ReqFirstHttpMinor?)
    ensures PlainOut(OnMajor(c, ch, next))
  {
  }

  lemma FirstMinorPlain(c: Core, ch: char, next: State)
    requires LineFits(c.line) && MatcherFits(c.m) && (next.ResHttpMinor? || next.ReqHttpMinor?)
    ensures PlainOut(OnFirstMinor(c, ch, next))
  {
  }

  lemma MinorDigitPlain(c: Core, ch: char)
    requires LineFits(c.line) && MatcherFits(c.m) && Plain(c.state)
    ensures PlainOut(OnMinorDigit(c, ch))
  {
    hide Plain;
  }

  lemma FirstStatusPlain(c: Core, ch: char)
    requires LineFits(c.line) && MatcherFits(c.m)
    ensures PlainOut(OnResFirstStatusCode(c, ch))
  {
  }

  lemma StatusPlain(c: Core, ch: char)
    requires LineFits(c.line) && MatcherFits(c.m)
    ensures PlainOut(OnResStatusCode(c, ch))
  {
  }

  lemma ExpectPlain(c: Core, ch: char, want: char, s: State)
    requires LineFits(c.line) && MatcherFits(c.m) && Plain(s)
    ensures PlainOut(Expect(c, ch, want, s))
  {
    hide Plain;
  }

  lemma ReasonPlain(c: Core, ch: char)
    requires LineFits(c.line) && MatcherFits(c.m)
    ensures PlainOut(OnResStatusStart(c, ch)) && PlainOut(OnResStatus(c, ch))
  {
  }

  lemma StatusLineKeeps(c: Core, ch: char)
    requires LineFits(c.line) && MatcherFits(c.m) && InStatusLine(c.state)
    ensures Keeps(StatusLineStep(c, ch))
  {
    hide Keeps, PlainOut, Expect, OnMajor, OnFirstMinor, OnMinorDigit, OnResFirstStatusCode, OnResStatusCode,
      OnResFirstHttpMajor, OnResStatusStart, OnResStatus;
    PlainOutKeeps(StatusLineStep(c, ch)) by { StatusLinePlain(c, ch); }
  }

  lemma StatusLinePlain(c: Core, ch: char)
    requires LineFits(c.line) && MatcherFits(c.m) && InStatusLine(c.state)
    ensures PlainOut(StatusLineStep(c, ch))
  {
    hide PlainOut, Expect, OnMajor, OnFirstMinor, OnResHttpMinor, OnMinorDigit, OnResFirstStatusCode,
      OnResStatusCode, OnResFirstHttpMajor, OnResStatusStart, OnResStatus;
    if c.state.ResH? { ExpectPlain(c, ch, 'T', ResHT); }
    else if c.state.ResHT? { ExpectPlain(c, ch, 'T', ResHTT); }
    else if c.state.ResHTT? { ExpectPlain(c, ch, 'P', ResHTTP); }
    else if c.state.ResHTTP? { ExpectPlain(c, ch, '/', ResFirstHttpMajor); }
    else if c.state.ResFirstHttpMajor? { ResFirstMajorPlain(c, ch); }
    else if c.state.ResHttpMajor? { MajorPlain(c, ch, ResFirstHttpMinor); }
    else if c.state.ResFirstHttpMinor? { FirstMinorPlain(c, ch, ResHttpMinor); }
    else if c.state.ResHttpMinor? { ResMinorPlain(c, ch); }
    else if c.state.ResFirstStatusCode? { FirstStatusPlain(c, ch); }
    else if c.state.ResStatusCode? { StatusPlain(c, ch); }
    else if c.state.ResLineAlmostDone? { ExpectPlain(c, ch, LF, HeaderFieldStart); }
    else { ReasonPlain(c, ch); }
  }

  lemma ResFirstMajorPlain(c: Core, ch: char)
    requires LineFits(c.line) && MatcherFits(c.m)
    ensures PlainOut(OnResFirstHttpMajor(c, ch))
  {
  }

  lemma ResMinorPlain(c: Core, ch: char)
    requires LineFits(c.line) && MatcherFits(c.m) && c.state.ResHttpMinor?
    ensures PlainOut(OnResHttpMinor(c, ch))
  {
    hide OnMinorDigit;
    MinorDigitPlain(c, ch);
  }

  lemma UrlKeeps(c: Core, ch: char)
    requires LineFits(c.line) && MatcherFits(c.m) && InUrl(c.state)
    ensures Keeps(UrlPhaseStep(c, ch))
  {
    hide Keeps;
    PlainOutKeeps(UrlPhaseStep(c, ch));
  }

  lemma RequestVersionKeeps(c: Core, ch: char)
    requires LineFits(c.line) && MatcherFits(c.m) && InRequestVersion(c.state)
    ensures Keeps(RequestVersionStep(c, ch))
  {
    hide Keeps, PlainOut, RequestVersionStep;
    PlainOutKeeps(RequestVersionStep(c, ch)) by { RequestVersionPlain(c, ch); }
  }

  lemma RequestVersionPlain(c: Core, ch: char)
    requires LineFits(c.line) && MatcherFits(c.m) && InRequestVersion(c.state)
    ensures PlainOut(RequestVersionStep(c, ch))
  {
    hide PlainOut, Expect, OnReqHttpStart, OnMajor, OnFirstMinor, OnReqHttpMinor, OnMinorDigit,
      OnReqFirstHttpMajor, OnReqLineAlmostDone;
    if c.state.ReqHttpH? { ExpectPlain(c, ch, 'T', ReqHttpHT); }
    else if c.state.ReqHttpHT? { ExpectPlain(c, ch, 'T', ReqHttpHTT); }
    else if c.state.ReqHttpHTT? { ExpectPlain(c, ch, 'P', ReqHttpHTTP); }
    else if c.state.ReqHttpHTTP? { ExpectPlain(c, ch, '/', ReqFirstHttpMajor); }
    else if c.state.ReqHttpMajor? { MajorPlain(c, ch, ReqFirstHttpMinor); }
    else if c.state.ReqFirstHttpMinor? { FirstMinorPlain(c, ch, ReqHttpMinor); }
    else { ReqLinePlain(c, ch); }
  }

  lemma ReqLinePlain(c: Core, ch: char)
    requires LineFits(c.line) && MatcherFits(c.m) && Plain(c.state)
    ensures PlainOut(OnReqHttpStart(c, ch)) && PlainOut(OnReqFirstHttpMajor(c, ch))
    ensures PlainOut(OnReqHttpMinor(c, ch)) && PlainOut(OnReqLineAlmostDone(c, ch))
  {
    hide OnMinorDigit;
    MinorDigitPlain(c, ch);
  }

  lemma CompleteKeeps(c: Core, exits: bool)
    requires LineFits(c.line) && MatcherFits(c.m)
    ensures PlainOut(Complete(c, exits))
  {
  }

  lemma HeadersDoneKeeps(c: Core, ch: char)
    requires LineFits(c.line) && MatcherFits(c.m)
    ensures Keeps(OnHeadersDone(c, ch))
  {
    hide Complete, FieldReady, ValueReady, MethodString, ShouldKeepAlive;
    CompleteKeeps(c, true);
    CompleteKeeps(c, false);
  }

  lemma HeadersAlmostDoneKeeps(c: Core, ch: char)
    requires LineFits(c.line) && MatcherFits(c.m)
    ensures Keeps(OnHeadersAlmostDone(c, ch))
  {
    hide Complete, OnHeadersDone, FieldReady, ValueReady, MethodString, ShouldKeepAlive, Sound;
    var up := (c.m.flags.upgrade && c.m.flags.connUpgrade) || c.line.verb.CONNECT?;
    HeadersDoneKeeps(c.(state := HeadersDone, upgrade := up), ch);
    MessageDoneKeeps(c.(state := MessageDone));
  }

  lemma MessageDoneKeeps(c: Core)
    requires LineFits(c.line) && MatcherFits(c.m)
    ensures Keeps(OnMessageDone(c))
  {
    hide Complete, FieldReady, ValueReady, MethodString;
    CompleteKeeps(c, false);
  }

  lemma FieldStartKeeps(c: Core, ch: char)
    requires LineFits(c.line) && MatcherFits(c.m)
    ensures Keeps(OnHeaderFieldStart(c, ch))
  {
    hide OnHeadersAlmostDone, MethodString;
    HeadersAlmostDoneKeeps(c.(state := HeadersAlmostDone), ch);
  }

  lemma FieldKeeps(c: Core, ch: char)
    requires LineFits(c.line) && MatcherFits(c.m) && FieldReady(c.m) && c.state.HeaderField?
    ensures Keeps(OnHeaderField(c, ch))
  {
    hide FieldByte, FieldReady, MethodString;
    if IsToken(ch) { FieldByteReady(c.m, ch); }
  }

  lemma ValueStartKeeps(c: Core, ch: char)
    requires LineFits(c.line) && MatcherFits(c.m)
    ensures Keeps(OnHeaderValueStart(c, ch))
  {
    hide FirstValueByte, MethodString;
    FirstValueByteReady(c.m, ch);
  }

  lemma ValueKeeps(c: Core, jumped: bool, ch: char)
    requires LineFits(c.line) && MatcherFits(c.m) && ValueReady(c.m) && c.state.HeaderValue?
    ensures Keeps(OnHeaderValue(c, jumped, ch))
  {
    hide ValueByte, ValueReady, MethodString;
    ValueByteReady(c.m, ch);
  }

  /** The states between a name and its value, and after a value. */
  lemma GapKeeps(c: Core, ch: char)
    requires LineFits(c.line) && MatcherFits(c.m)
    ensures Keeps(OnHeaderValueDiscardWs(c, ch)) && Keeps(OnHeaderAlmostDone(c, ch))
    ensures Keeps(Expect(c, ch, LF, HeaderValueDiscardLws))
  {
    hide OnHeaderValueStart, MethodString, FieldReady, ValueReady;
    ValueStartKeeps(c, ch);
  }

  lemma LineEndKeeps(c: Core, ch: char)
    requires LineFits(c.line) && MatcherFits(c.m)
    ensures Keeps(OnHeaderValueDiscardLws(c, ch)) && Keeps(OnHeaderValueLws(c, ch))
  {
    hide OnHeaderFieldStart, OnHeaderValueStart, MethodString, FieldReady, ValueReady;
    FieldStartKeeps(c.(m := TokenFlags(c.m), state := HeaderFieldStart), ch);
    ValueStartKeeps(c.(state := HeaderValueStart), ch);
  }

  lemma HeaderKeeps(c: Core, jumped: bool, ch: char)
    requires c.errno.Ok? && CoreInv(c) && InHeaderBlock(c.state)
    ensures Keeps(HeaderStep(c, jumped, ch))
  {
    hide Keeps, OnHeaderFieldStart, OnHeaderField, OnHeaderValueStart, OnHeaderValue, OnHeadersAlmostDone,
      OnHeadersDone, OnHeaderValueDiscardWs, OnHeaderValueDiscardLws, OnHeaderValueLws, OnHeaderAlmostDone,
      Expect, MethodString, FieldReady, ValueReady;
    if c.state.HeaderField? { FieldKeeps(c, ch); }
    else if c.state.HeaderValue? { ValueKeeps(c, jumped, ch); }
    else if c.state.HeadersAlmostDone? { HeadersAlmostDoneKeeps(c, ch); }
    else if c.state.HeadersDone? { HeadersDoneKeeps(c, ch); }
    else if c.state.HeaderFieldStart? { FieldStartKeeps(c, ch); }
    else if c.state.HeaderValueStart? { ValueStartKeeps(c, ch); }
    else if c.state.HeaderValueDiscardLws? || c.state.HeaderValueLws? { LineEndKeeps(c, ch); }
    else { GapKeeps(c, ch); }
  }

  lemma SizeStartKeeps(c: Core, ch: char)
    requires CoreInv(c) && c.state.ChunkSizeStart?
    ensures Keeps(OnChunkSizeStart(c, ch))
  {
    hide FieldReady, ValueReady, MethodString;
  }

  lemma SizeKeeps(c: Core, ch: char)
    requires CoreInv(c) && c.state.ChunkSize?
    ensures Keeps(OnChunkSize(c, ch))
  {
    hide FieldReady, ValueReady, MethodString, AddToLength;
    if Unhex(ch) != -1 { AddToLengthExact(c.m, 16, Unhex(ch)); }
  }

  lemma ChunkSizeKeeps(c: Core, ch: char)
    requires c.errno.Ok? && CoreInv(c)
    requires c.state.ChunkSizeStart? || c.state.ChunkSize? || c.state.ChunkParameters? || c.state.ChunkSizeAlmostDone?
    ensures Keeps(BodyStep(c, ch))
  {
    hide OnChunkSizeStart, OnChunkSize, FieldReady, ValueReady, MethodString;
    if c.state.ChunkSizeStart? { SizeStartKeeps(c, ch); }
    if c.state.ChunkSize? { SizeKeeps(c, ch); }
  }

  lemma ChunkDataKeeps(c: Core, ch: char)
    requires c.errno.Ok? && CoreInv(c)
    requires c.state.ChunkData? || c.state.ChunkDataAlmostDone? || c.state.ChunkDataDone?
    ensures Keeps(BodyStep(c, ch))
  {
    hide FieldReady, ValueReady, MethodString;
  }

  lemma BodyKeeps(c: Core, ch: char)
    requires c.errno.Ok? && CoreInv(c) && InBody(c.state)
    ensures Keeps(BodyStep(c, ch))
  {
    hide OnMessageDone, FieldReady, ValueReady, MethodString, Unhex, AddToLength, OnChunkSizeStart, OnChunkSize;
    if c.state.ChunkData? || c.state.ChunkDataAlmostDone? || c.state.ChunkDataDone? {
      ChunkDataKeeps(c, ch);
    } else if InChunk(c.state) {
      ChunkSizeKeeps(c, ch);
    } else {
      MessageDoneKeeps(c);
      MessageDoneKeeps(c.(m := Countdown(c.m), state := MessageDone));
    }
  }

  lemma TransitionKeeps(c: Core, jumped: bool, ch: char)
    requires c.errno.Ok? && CoreInv(c)
    ensures Keeps(Transition(c, jumped, ch))
  {
    hide Keeps, Sound, StartStep, StatusLineStep, UrlPhaseStep, RequestVersionStep, HeaderStep, BodyStep;
    if InStart(c.state) { StartKeeps(c, ch); }
    else if InStatusLine(c.state) { StatusLineKeeps(c, ch); }
    else if InUrl(c.state) { UrlKeeps(c, ch); }
    else if InRequestVersion(c.state) { RequestVersionKeeps(c, ch); }
    else if InHeaderBlock(c.state) { HeaderKeeps(c, jumped, ch); }
    else { BodyKeeps(c, ch); }
  }

  /* ---- the machine ---------------------------------------------------- */

  lemma EmitEnds(tr: seq<Event>, k: Mark, text: string)
    ensures EndsIn(Emit(tr, Data(k, text)), k)
  {
  }

  lemma {:induction false} InterpretEnds(tr: seq<Event>, acts: seq<Act>, k: Option<Mark>)
    requires acts != [] && EndsInBody(acts[|acts| - 1])
    ensures EndsIn(Interpret(tr, acts, k), Mark.Body)
    decreases |acts|
  {
    if |acts| == 1 {
      var e := acts[0].event;
      EmitEnds(tr, Mark.Body, e.text);
      assert Interpret(Emit(tr, e), acts[1..], k) == Emit(tr, e);
    } else {
      match acts[0]
      case Set(j) => InterpretEnds(tr, acts[1..], if k.None? then Some(j) else k);
      case Flush(j) =>
        InterpretEnds(Emit(tr, Data(j, "")), acts[1..], None);
        InterpretEnds(tr, acts[1..], k);
      case Note(e) => InterpretEnds(Emit(tr, e), acts[1..], k);
    }
  }

  lemma StepKeepsInv(m: Machine, ch: char)
    requires m.core.errno.Ok? && Inv(m)
    ensures Step(m, ch).core.errno.Ok? ==> Inv(Step(m, ch))
  {
    hide Transition, CoreInv, Interpret, Emit;
    var o := Transition(m.core, m.jumped, ch);
    TransitionKeeps(m.core, m.jumped, ch);
    var tr := Interpret(m.trace, o.acts, OpenMark(m.core.state));
    if o.core.errno.Ok? {
      if OpenMark(o.core.state).Some? { EmitEnds(tr, OpenMark(o.core.state).value, [ch]); }
      if o.core.state.ChunkDataAlmostDone? { InterpretEnds(m.trace, o.acts, OpenMark(m.core.state)); }
    }
  }

  /** Safety over every run: no input leads out of the invariant. */
  lemma {:induction false} RunKeepsInv(m: Machine, data: string)
    requires m.core.errno.Ok? && Inv(m)
    ensures Run(m, data).m.core.errno.Ok? ==> Inv(Run(m, data).m)
    decreases |data|
  {
    hide Step, Inv;
    if data != [] {
      StepKeepsInv(m, data[0]);
      if Step(m, data[0]).core.errno.Ok? { RunKeepsInv(Step(m, data[0]), data[1..]); }
    }
  }
}
