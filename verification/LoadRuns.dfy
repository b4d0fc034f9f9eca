/**
 How much a stretch of a header block counts: its length, and once more the octets
 that the loops over names and values read.  A stretch that causes none of the
 callbacks that mark a phase of a message stays inside one header block.
 */
module LoadRuns {
  import opened Ascii
  import opened ParserTypes
  import opened ParserStep
  import opened ParserMachine
  import opened ParserRuns
  import opened FieldNames
  import opened ParserWords
  import opened HeaderLimit
  import opened ReadLimits

  /** Every octet counts, and the count goes on. */
  predicate Calm(m: Machine, s: string)
    decreases |s|
  {
    hide Transition;
    s == "" || (ParsingHeader(m.core.state) && Carried(m, 1, s[0]) == 1 && Calm(Step(m, s[0]), s[1..]))
  }

  /** How many octets the loops over names and values read. */
  function Twice(m: Machine, s: string): nat
    decreases |s|
  {
    hide Transition;
    if s == "" then 0 else (if InLoop(m, s[0]) then 1 else 0) + Twice(Step(m, s[0]), s[1..])
  }

  lemma CarriedMeans(m: Machine, over: nat, ch: char)
    ensures Carried(m, over, ch) == (if Carried(m, 1, ch) == 1 then over else 0)
    ensures ParsingHeader(m.core.state) ==> Step(m, ch).hdr == if Carried(m, 1, ch) == 1 then m.hdr + 1 else 0
    ensures !ParsingHeader(m.core.state) ==> Step(m, ch).hdr == if Carried(m, 1, ch) == 1 then m.hdr else 0
  {
    hide Transition, Interpret, OpenMark, ParsingHeader;
  }

  /* ---- parts ---------------------------------------------------------- */

  lemma OverStep(m: Machine, s: string, w: Machine)
    requires Over(m, s, w) && s != ""
    ensures Over(Step(m, s[0]), s[1..], w) && Step(m, s[0]).core.errno.Ok?
  {
    hide Transition, Step;
  }

  lemma OverEnds(m: Machine, w: Machine)
    requires Over(m, "", w)
    ensures m == w
  {
    hide Transition;
  }

  lemma {:induction false} CalmJoins(m: Machine, a: string, w: Machine, b: string)
    requires Over(m, a, w) && Calm(m, a) && Calm(w, b)
    ensures Calm(m, a + b)
    decreases |a|
  {
    hide Transition, Step, Over, Carried;
    if a == "" {
      assert a + b == b;
      OverEnds(m, w);
    } else {
      assert (a + b)[0] == a[0] && (a + b)[1..] == a[1..] + b;
      OverStep(m, a, w);
      CalmJoins(Step(m, a[0]), a[1..], w, b);
    }
  }

  lemma {:induction false} TwiceJoins(m: Machine, a: string, w: Machine, b: string)
    requires Over(m, a, w)
    ensures Twice(m, a + b) == Twice(m, a) + Twice(w, b)
    decreases |a|
  {
    hide Transition, Step, Over, InLoop;
    if a == "" {
      assert a + b == b;
      OverEnds(m, w);
    } else {
      assert (a + b)[0] == a[0] && (a + b)[1..] == a[1..] + b;
      OverStep(m, a, w);
      TwiceJoins(Step(m, a[0]), a[1..], w, b);
    }
  }

  lemma LoadAfter(m: Machine, over: nat, a: string, w: Machine, b: string)
    requires Over(m, a, w)
    ensures Load(m, over, a + b) == Max(Load(m, over, a), Load(w, SingleAll(m, over, a), b))
    ensures SingleAll(m, over, a + b) == SingleAll(w, SingleAll(m, over, a), b)
  {
    hide Transition, Step, Load, SingleAll, Run;
    LoadJoins(m, over, a, b);
    SingleJoins(m, over, a, w, b);
  }

  lemma {:induction false} SingleJoins(m: Machine, over: nat, a: string, w: Machine, b: string)
    requires Over(m, a, w)
    ensures SingleAll(m, over, a + b) == SingleAll(w, SingleAll(m, over, a), b)
    decreases |a|
  {
    hide Transition, Step, Over, Single;
    if a == "" {
      assert a + b == b;
      OverEnds(m, w);
    } else {
      assert (a + b)[0] == a[0] && (a + b)[1..] == a[1..] + b;
      OverStep(m, a, w);
      StartsOk(m, a, w);
      SingleJoins(Step(m, a[0]), Single(m, over, a[0]), a[1..], w, b);
    }
  }

  lemma StartsOk(m: Machine, s: string, w: Machine)
    requires Over(m, s, w)
    ensures m.core.errno.Ok? && w.core.errno.Ok?
  {
  }

  /* ---- what a stretch counts ------------------------------------------ */

  lemma {:induction false} CalmLoad(m: Machine, over: nat, s: string, w: Machine)
    requires Over(m, s, w) && Calm(m, s)
    ensures w.hdr == m.hdr + |s| && SingleAll(m, over, s) == over + Twice(m, s)
    ensures Load(m, over, s) == if s == "" then 0 else m.hdr + over + |s| + Twice(m, s)
    decreases |s|
  {
    hide Transition, Step, Over, InLoop, ParsingHeader, Carried;
    if s == "" {
      OverEnds(m, w);
    } else {
      OverStep(m, s, w);
      StartsOk(m, s, w);
      CarriedMeans(m, over, s[0]);
      var x := Step(m, s[0]);
      CalmLoad(x, Single(m, over, s[0]), s[1..], w);
    }
  }

  /** A stretch and the octet after which the count starts again. */
  lemma CalmLoadEnds(m: Machine, over: nat, s: string, x: Machine, ch: char)
    requires Over(m, s, x) && Calm(m, s) && ParsingHeader(x.core.state) && !InLoop(x, ch)
    requires Step(x, ch).core.errno.Ok? && Step(x, ch).hdr == 0
    ensures Load(m, over, s + [ch]) == m.hdr + over + |s| + 1 + Twice(m, s)
    ensures SingleAll(m, over, s + [ch]) == 0
  {
    hide Transition, Step, Over, InLoop, ParsingHeader, Carried, Calm, Twice;
    StartsOk(m, s, x);
    CalmLoad(m, over, s, x);
    LoadAfter(m, over, s, x, [ch]);
    CarriedMeans(x, over + Twice(m, s), ch);
    OneLoad(x, over + Twice(m, s), ch);
  }

  lemma OneLoad(m: Machine, over: nat, ch: char)
    requires m.core.errno.Ok?
    ensures Load(m, over, [ch]) == Here(m, over, ch)
    ensures SingleAll(m, over, [ch]) == Single(m, over, ch)
  {
    hide Transition, Step, Here, Single;
    assert [ch][0] == ch && [ch][1..] == "";
    assert Load(Step(m, ch), Single(m, over, ch), "") == 0;
    assert SingleAll(Step(m, ch), Single(m, over, ch), "") == Single(m, over, ch);
  }

  /* ---- stretches without phase callbacks ------------------------------ */

  predicate Marks(e: Event) { !e.Data? && !e.MessageBegin? }

  /** How many callbacks mark a phase. */
  function Noted(tr: seq<Event>): nat {
    if tr == [] then 0 else Noted(tr[..|tr| - 1]) + (if Marks(tr[|tr| - 1]) then 1 else 0)
  }

  lemma NotedMore(tr: seq<Event>, e: Event)
    ensures Noted(tr + [e]) == Noted(tr) + (if Marks(e) then 1 else 0)
  {
    assert (tr + [e])[..|tr|] == tr;
  }

  lemma {:induction false} NotedAll(tr: seq<Event>, es: seq<Event>)
    requires forall i :: 0 <= i < |es| ==> !Marks(es[i])
    ensures Noted(tr + es) == Noted(tr)
    decreases |es|
  {
    if es == [] {
      assert tr + es == tr;
    } else {
      var n := |es| - 1;
      NotedAll(tr, es[..n]);
      NotedMore(tr + es[..n], es[n]);
      assert tr + es == tr + es[..n] + [es[n]];
    }
  }

  lemma NotedEmit(tr: seq<Event>, e: Event)
    ensures Noted(Emit(tr, e)) == Noted(tr) + (if Marks(e) then 1 else 0)
  {
    if EndsWith(tr, e) {
      var n := |tr| - 1;
      NotedMore(tr[..n], Data(e.mark, tr[n].text + e.text));
    } else {
      NotedMore(tr, e);
    }
  }

  predicate Silent(acts: seq<Act>) { forall i :: 0 <= i < |acts| ==> acts[i].Note? ==> !Marks(acts[i].event) }

  lemma {:induction false} NotedInterpret(tr: seq<Event>, acts: seq<Act>, k: Option<Mark>)
    ensures Noted(Interpret(tr, acts, k)) >= Noted(tr)
    ensures Noted(Interpret(tr, acts, k)) == Noted(tr) ==> Silent(acts)
    decreases |acts|
  {
    hide Emit, Noted, Marks;
    if acts != [] {
      match acts[0]
      case Set(j) => NotedInterpret(tr, acts[1..], if k.None? then Some(j) else k);
      case Flush(j) =>
        NotedEmit(tr, Data(j, ""));
        assert !Marks(Data(j, "")) by { DataMarksNot(j, ""); }
        NotedInterpret(Emit(tr, Data(j, "")), acts[1..], None);
        NotedInterpret(tr, acts[1..], k);
      case Note(e) =>
        NotedEmit(tr, e);
        NotedInterpret(Emit(tr, e), acts[1..], k);
    }
  }

  lemma DataMarksNot(k: Mark, s: string)
    ensures !Marks(Data(k, s))
  {
  }

  lemma StepNotes(m: Machine, ch: char)
    requires Step(m, ch).core.errno.Ok?
    ensures Noted(Step(m, ch).trace) >= Noted(m.trace)
    ensures Noted(Step(m, ch).trace) == Noted(m.trace) ==> Silent(Transition(m.core, m.jumped, ch).acts)
  {
    hide Transition, Interpret, Emit, Noted, OpenMark, Silent;
    var o := Transition(m.core, m.jumped, ch);
    NotedInterpret(m.trace, o.acts, OpenMark(m.core.state));
    if OpenMark(o.core.state).Some? {
      NotedEmit(Interpret(m.trace, o.acts, OpenMark(m.core.state)), Data(OpenMark(o.core.state).value, [ch]));
    }
  }

  lemma {:induction false} OverNotes(m: Machine, s: string, w: Machine)
    requires Over(m, s, w)
    ensures Noted(w.trace) >= Noted(m.trace)
    decreases |s|
  {
    hide Transition, Step, Over, Noted;
    if s == "" {
      OverEnds(m, w);
    } else {
      OverStep(m, s, w);
      StepNotes(m, s[0]);
      OverNotes(Step(m, s[0]), s[1..], w);
    }
  }

  /** The phases of a header block: its first line, its fields, and the line of a chunk size. */
  predicate InLine(s: State) { InStart(s) || InStatusLine(s) || InUrl(s) || InRequestVersion(s) }

  predicate InFields(s: State) { InHeaderBlock(s) && !s.HeaderFieldStart? && !s.HeadersDone? }

  predicate InSize(s: State) { InChunk(s) && ParsingHeader(s) }

  predicate Resting(s: State) { InLine(s) || s.HeaderFieldStart? || InFields(s) || InSize(s) }

  /** What a step without phase callbacks leaves. */
  predicate Goes(c: Core, o: Out) {
    && !o.clears
    && (o.core.errno.Ok? ==>
          if InLine(c.state) then InLine(o.core.state) || o.core.state.HeaderFieldStart?
          else if InSize(c.state) then InSize(o.core.state) else InFields(o.core.state))
  }

  lemma StartGoes(c: Core, ch: char)
    requires InStart(c.state)
    ensures Goes(c, StartStep(c, ch))
  {
    hide FirstMethod, SwitchMethod, MethodString, IsAlpha;
  }

  lemma StatusLineGoes(c: Core, ch: char)
    requires InStatusLine(c.state)
    ensures Goes(c, StatusLineStep(c, ch))
  {
  }

  lemma UrlGoes(c: Core, ch: char)
    requires InUrl(c.state)
    ensures Goes(c, UrlPhaseStep(c, ch))
  {
    hide IsUrlChar, IsUserinfoChar, IsAlpha;
  }

  lemma VersionGoes(c: Core, ch: char)
    requires InRequestVersion(c.state)
    ensures Goes(c, RequestVersionStep(c, ch))
  {
  }

  lemma SilentFirst(acts: seq<Act>)
    ensures Silent(acts) && acts != [] && acts[0].Note? ==> !Marks(acts[0].event)
  {
  }

  lemma AlmostDoneSpeaks(c: Core, ch: char)
    ensures
      var o := OnHeadersAlmostDone(c, ch);
      Silent(o.acts) ==> !o.core.errno.Ok? && !o.clears
  {
    hide OnHeadersDone, OnMessageDone, ShouldKeepAlive;
    var o := OnHeadersAlmostDone(c, ch);
    SilentFirst(o.acts);
  }

  lemma FieldStartGoes(c: Core, ch: char)
    requires c.errno.Ok? && c.state.HeaderFieldStart? && Silent(OnHeaderFieldStart(c, ch).acts)
    ensures Goes(c, OnHeaderFieldStart(c, ch))
  {
    hide OnHeadersAlmostDone, Silent;
    AlmostDoneSpeaks(c.(state := HeadersAlmostDone), ch);
  }

  lemma LaterGoes(acts: seq<Act>, o: Out)
    requires Silent(Then(acts, o).acts)
    ensures Silent(o.acts)
  {
    forall i | 0 <= i < |o.acts| && o.acts[i].Note? ensures !Marks(o.acts[i].event) {
      assert (acts + o.acts)[|acts| + i] == o.acts[i];
    }
  }

  lemma LineEndGoes(c: Core, ch: char)
    requires c.errno.Ok? && (c.state.HeaderValueLws? || c.state.HeaderValueDiscardLws?)
    requires Silent((if c.state.HeaderValueLws? then OnHeaderValueLws(c, ch) else OnHeaderValueDiscardLws(c, ch)).acts)
    ensures Goes(c, if c.state.HeaderValueLws? then OnHeaderValueLws(c, ch) else OnHeaderValueDiscardLws(c, ch))
  {
    hide OnHeaderFieldStart, FirstValueByte, TokenFlags, Silent;
    var d := c.(m := TokenFlags(c.m), state := HeaderFieldStart);
    if ch != SP && ch != HT {
      if c.state.HeaderValueDiscardLws? { LaterGoes([Set(Value), Flush(Value)], OnHeaderFieldStart(d, ch)); }
      FieldStartGoes(d, ch);
    }
  }

  lemma TextGoes(c: Core, jumped: bool, ch: char)
    requires c.errno.Ok?
    ensures c.state.HeaderField? ==> Goes(c, OnHeaderField(c, ch))
    ensures c.state.HeaderValue? ==> Goes(c, OnHeaderValue(c, jumped, ch))
  {
    hide FieldByte, ValueByte, IsToken, IsHeaderChar;
  }

  lemma GapGoes(c: Core, ch: char)
    requires c.errno.Ok?
    ensures c.state.HeaderValueDiscardWs? ==> Goes(c, OnHeaderValueDiscardWs(c, ch))
    ensures c.state.HeaderValueDiscardWsAlmostDone? ==> Goes(c, Expect(c, ch, LF, HeaderValueDiscardLws))
    ensures c.state.HeaderValueStart? ==> Goes(c, OnHeaderValueStart(c, ch))
    ensures c.state.HeaderAlmostDone? ==> Goes(c, OnHeaderAlmostDone(c, ch))
  {
    hide FirstValueByte;
  }

  lemma HeaderGoes(c: Core, jumped: bool, ch: char)
    requires c.errno.Ok? && InHeaderBlock(c.state) && !c.state.HeadersDone? && Silent(HeaderStep(c, jumped, ch).acts)
    ensures Goes(c, HeaderStep(c, jumped, ch))
  {
    hide OnHeaderFieldStart, OnHeaderField, OnHeaderValueDiscardWs, OnHeaderValueDiscardLws, OnHeaderValueStart,
      OnHeaderValue, OnHeaderValueLws, OnHeaderAlmostDone, OnHeadersAlmostDone, OnHeadersDone, Goes, Silent, Expect;
    TextGoes(c, jumped, ch);
    GapGoes(c, ch);
    if c.state.HeaderFieldStart? { FieldStartGoes(c, ch); }
    else if c.state.HeaderValueLws? || c.state.HeaderValueDiscardLws? { LineEndGoes(c, ch); }
    else if c.state.HeadersAlmostDone? {
      AlmostDoneSpeaks(c, ch);
      assert Goes(c, OnHeadersAlmostDone(c, ch)) by { FailedGoes(c, OnHeadersAlmostDone(c, ch)); }
    }
  }

  lemma FailedGoes(c: Core, o: Out)
    requires !o.core.errno.Ok? && !o.clears
    ensures Goes(c, o)
  {
  }

  lemma SizeGoes(c: Core, ch: char)
    requires c.errno.Ok? && InSize(c.state) && Silent(BodyStep(c, ch).acts)
    ensures Goes(c, BodyStep(c, ch))
  {
    hide AddToLength, Unhex;
    var o := BodyStep(c, ch);
    SilentFirst(o.acts);
  }

  lemma TransitionGoes(c: Core, jumped: bool, ch: char)
    requires c.errno.Ok? && Resting(c.state) && Silent(Transition(c, jumped, ch).acts)
    ensures Goes(c, Transition(c, jumped, ch))
  {
    hide StartStep, StatusLineStep, UrlPhaseStep, RequestVersionStep, HeaderStep, BodyStep, Goes, Silent;
    if InStart(c.state) { StartGoes(c, ch); }
    else if InStatusLine(c.state) { StatusLineGoes(c, ch); }
    else if InUrl(c.state) { UrlGoes(c, ch); }
    else if InRequestVersion(c.state) { VersionGoes(c, ch); }
    else if InHeaderBlock(c.state) { HeaderGoes(c, jumped, ch); }
    else { SizeGoes(c, ch); }
  }

  lemma RestingCounts(s: State)
    requires Resting(s)
    ensures ParsingHeader(s)
  {
  }

  lemma QuietStep(m: Machine, ch: char)
    requires m.core.errno.Ok? && Step(m, ch).core.errno.Ok? && Resting(m.core.state)
    requires Noted(Step(m, ch).trace) == Noted(m.trace)
    ensures Goes(m.core, Transition(m.core, m.jumped, ch)) && Carried(m, 1, ch) == 1 && Resting(Step(m, ch).core.state)
    ensures Step(m, ch).core == Transition(m.core, m.jumped, ch).core
  {
    hide Transition, Interpret, Emit, Noted, OpenMark, InLine, InFields, InSize, Silent;
    StepNotes(m, ch);
    TransitionGoes(m.core, m.jumped, ch);
  }

  /** A stretch that marks no phase is all counted, without a new start. */
  lemma {:induction false} QuietRun(m: Machine, s: string, w: Machine)
    requires Over(m, s, w) && Resting(m.core.state) && Noted(w.trace) == Noted(m.trace)
    ensures Calm(m, s) && Resting(w.core.state)
    decreases |s|
  {
    hide Transition, Step, Over, Noted, Resting, Goes, Carried;
    if s == "" {
      OverEnds(m, w);
    } else {
      var x := Step(m, s[0]);
      OverStep(m, s, w);
      StartsOk(m, s, w);
      StepNotes(m, s[0]);
      OverNotes(x, s[1..], w);
      QuietStep(m, s[0]);
      RestingCounts(m.core.state);
      QuietRun(x, s[1..], w);
    }
  }

  /** In the fields of a block a quiet stretch never comes back to its start. */
  lemma {:induction false} FieldsStay(m: Machine, s: string, w: Machine)
    requires Over(m, s, w) && (InFields(m.core.state) || (m.core.state.HeaderFieldStart? && s != ""))
    requires Noted(w.trace) == Noted(m.trace)
    ensures InFields(w.core.state)
    decreases |s|
  {
    hide Transition, Step, Over, Noted;
    if s == "" {
      OverEnds(m, w);
    } else {
      var x := Step(m, s[0]);
      OverStep(m, s, w);
      StartsOk(m, s, w);
      StepNotes(m, s[0]);
      OverNotes(x, s[1..], w);
      QuietStep(m, s[0]);
      FieldsStay(x, s[1..], w);
    }
  }

  /** The first line of a message: no octet is counted twice. */
  lemma {:induction false} LineTwice(m: Machine, s: string, w: Machine)
    requires Over(m, s, w) && InLine(m.core.state) && w.core.state.HeaderFieldStart? && Noted(w.trace) == Noted(m.trace)
    ensures Twice(m, s) == 0
    decreases |s|
  {
    hide Transition, Step, Over, Noted;
    if s == "" {
      OverEnds(m, w);
    } else {
      var x := Step(m, s[0]);
      OverStep(m, s, w);
      StartsOk(m, s, w);
      StepNotes(m, s[0]);
      OverNotes(x, s[1..], w);
      QuietStep(m, s[0]);
      if x.core.state.HeaderFieldStart? {
        if s[1..] != "" { FieldsStay(x, s[1..], w); }
      } else {
        LineTwice(x, s[1..], w);
      }
    }
  }

  /** Nor in the line of a chunk size. */
  lemma {:induction false} SizeTwice(m: Machine, s: string, w: Machine)
    requires Over(m, s, w) && InSize(m.core.state) && Noted(w.trace) == Noted(m.trace)
    ensures Twice(m, s) == 0 && InSize(w.core.state)
    decreases |s|
  {
    hide Transition, Step, Over, Noted;
    if s == "" {
      OverEnds(m, w);
    } else {
      var x := Step(m, s[0]);
      OverStep(m, s, w);
      StartsOk(m, s, w);
      StepNotes(m, s[0]);
      OverNotes(x, s[1..], w);
      QuietStep(m, s[0]);
      SizeTwice(x, s[1..], w);
    }
  }

  /** The loops: every octet is counted twice. */
  lemma {:induction false} LoopTwice(m: Machine, s: string, w: Machine)
    requires Over(m, s, w) && (m.core.state.HeaderField? || m.core.state.HeaderValue?)
    requires m.core.state.HeaderField? ==> IsTokens(s)
    requires m.core.state.HeaderValue? ==> forall i :: 0 <= i < |s| ==> s[i] != CR && s[i] != LF
    ensures Twice(m, s) == |s|
    decreases |s|
  {
    hide Transition, Step, Over, IsToken;
    if s != "" {
      OverStep(m, s, w);
      StartsOk(m, s, w);
      LoopPlain(m, s[0]);
      LoopTwice(Step(m, s[0]), s[1..], w);
    }
  }

  lemma OneTwice(m: Machine, ch: char)
    requires !InLoop(m, ch)
    ensures Twice(m, [ch]) == 0
  {
    hide Transition, Step, InLoop;
    assert [ch][0] == ch && [ch][1..] == "";
  }

  /* ---- stretches that do not count ------------------------------------ */

  /** Octets outside header blocks, when nothing is in excess before. */
  lemma UncountedOctet(m: Machine, ch: char)
    requires m.core.errno.Ok? && !ParsingHeader(m.core.state)
    ensures Load(m, 0, [ch]) == 0 && SingleAll(m, 0, [ch]) == 0
  {
    hide Transition, Step;
    OneLoad(m, 0, ch);
  }

  lemma {:induction false} DataLoad(m: Machine, s: string)
    requires m.core.errno.Ok? && CanTake(m.core, |s|)
    ensures Load(m, 0, s) == 0 && SingleAll(m, 0, s) == 0
    decreases |s|
  {
    hide Transition, Step, Emit, TakenCore;
    if s != "" {
      BodyOctet(m, s[0]);
      BodyCarries(m, 0, s[0]);
      StreamsPlainly(m.core, s[0]);
      TakenOk(m.core, 1);
      if |s| > 1 {
        TakenTwice(m, [s[0]], s[1..]);
        assert [s[0]] + s[1..] == s;
        DataLoad(Taken(m, [s[0]]), s[1..]);
      } else {
        assert s[1..] == "";
      }
    }
  }
}
