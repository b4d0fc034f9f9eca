/**
 Header lines that are spelled otherwise than they are printed (section 3.2 of RFC 7230): any
 white space or none behind the colon, bare line feeds, and values on several lines.
 */
module HeaderForms {
  import opened Ascii
  import opened ParserTypes
  import opened ParserStep
  import opened ParserMachine
  import opened ParserRuns
  import opened ParserInvariant
  import opened FieldNames
  import opened FieldValues
  import opened ParserWords
  import opened HeaderLines
  import opened FirstLineForms

  /** A line: what stands between the colon and the value, and how the line ends. */
  datatype LineForm = LineForm(key: string, padding: string, value: string, eol: string)

  predicate IsLineForm(f: LineForm) {
    CleanKey(f.key) && IsPadding(f.padding) && CleanValue(f.value) && IsLineEnd(f.eol)
  }

  function LineText(f: LineForm): string { f.key + ":" + (f.padding + (f.value + f.eol)) }

  /* ---- bare line feeds ------------------------------------------------------ */

  lemma ValueFeed(m: Machine)
    requires m.core.errno.Ok? && m.core.state.HeaderValue? && EndsIn(m.trace, Value)
    ensures Over(m, [LF], Step(m, LF)) && Is(Step(m, LF), m.core.(state := HeaderValueLws), m.trace)
  {
    FeedOut(m.core, m.jumped);
    hide Transition, Step;
    assert IsHeaderChar(LF);
    OneFlush(m.trace, Value);
    assert Is(Step(m, LF), m.core.(state := HeaderValueLws), m.trace) by {
      hide Emit, Interpret;
    }
    OverOctet(m, LF);
  }

  lemma FeedOut(c: Core, jumped: bool)
    requires c.state.HeaderValue?
    ensures Transition(c, jumped, LF) == Out(c.(state := HeaderValueLws), [Flush(Value)] + [], false, false)
  {
    hide StartStep, StatusLineStep, UrlPhaseStep, RequestVersionStep, BodyStep, ValueByte;
  }

  /** A value and its line end. */
  lemma TextReads(m: Machine, v: string, eol: string) returns (w: Machine)
    requires m.core.errno.Ok? && m.core.state.HeaderValueDiscardWs? && CleanValue(v) && v != "" && IsLineEnd(eol)
    requires ValueOf(m.core.m, v).errno.Ok?
    ensures Over(m, v + eol, w)
    ensures Is(w, m.core.(state := HeaderValueLws, m := ValueOf(m.core.m, v).m), Emit(m.trace, Data(Value, v)))
  {
    hide Transition, Step, ValueOf, Over, CleanValue, Emit;
    if eol == "\n" {
      var b := ValueWhole(m, v);
      ValueFeed(b);
      w := Step(b, LF);
      OverTrans(m, v, b, [LF], w);
      assert [LF] == eol;
    } else {
      w := ValueLineOver(m, v);
    }
  }

  /** The line end behind a value without octets. */
  lemma NothingReads(m: Machine, eol: string) returns (w: Machine)
    requires m.core.errno.Ok? && m.core.state.HeaderValueDiscardWs? && IsLineEnd(eol)
    ensures Over(m, eol, w) && Is(w, m.core.(state := HeaderValueDiscardLws), m.trace)
  {
    hide Transition, Step, Over;
    if eol == "\n" {
      EmptyFeed(m);
      OverOctet(m, LF);
      w := Step(m, LF);
      assert [LF] == eol;
    } else {
      w := EmptyLineOver(m);
    }
  }

  lemma EmptyFeed(m: Machine)
    requires m.core.errno.Ok? && m.core.state.HeaderValueDiscardWs?
    ensures Is(Step(m, LF), m.core.(state := HeaderValueDiscardLws), m.trace)
  {
    hide StartStep, StatusLineStep, UrlPhaseStep, RequestVersionStep, BodyStep, OnHeaderValueStart;
  }

  /** A line in any of these forms is read as the pair that it holds. */
  lemma FormOver(m: Machine, f: LineForm) returns (w: Machine)
    requires m.core.errno.Ok? && m.core.state.HeaderFieldStart? && !EndsIn(m.trace, Field) && IsLineForm(f)
    requires LineMatcher(m.core.m, f.key, f.value).errno.Ok?
    ensures Over(m, LineText(f), w) && BetweenLines(w.core.state)
    ensures
      Is(Settle(w), m.core.(m := LineMatcher(m.core.m, f.key, f.value).m),
         m.trace + [Data(Field, f.key), Data(Value, f.value)])
  {
    hide Transition, Step, Over, Name, ValueOf, CleanKey, CleanValue, TokenFlags, IsPadding, IsLineEnd;
    var k, v := f.key, f.value;
    var a := ColonOver(m, k);
    assert a.trace == m.trace + [Data(Field, k)];
    var b := PaddingOver(a, f.padding);
    if v == "" {
      w := NothingReads(b, f.eol);
      assert v + f.eol == f.eol;
    } else {
      w := TextReads(b, v, f.eol);
    }
    OverTrans(a, f.padding, b, v + f.eol, w);
    OverTrans(m, k + ":", a, f.padding + (v + f.eol), w);
    assert m.trace + [Data(Field, k)] + [Data(Value, v)] == m.trace + [Data(Field, k), Data(Value, v)];
  }

  /* ---- blocks ----------------------------------------------------------------- */

  predicate AreLineForms(fs: seq<LineForm>) { forall i :: 0 <= i < |fs| ==> IsLineForm(fs[i]) }

  /** The pairs that the lines hold. */
  function Held(fs: seq<LineForm>): Pairs { if fs == [] then [] else [(fs[0].key, fs[0].value)] + Held(fs[1..]) }

  function FormsText(fs: seq<LineForm>): string { if fs == [] then "" else LineText(fs[0]) + FormsText(fs[1..]) }

  lemma {:induction false} HeldClean(fs: seq<LineForm>)
    requires AreLineForms(fs)
    ensures CleanPairs(Held(fs))
    decreases |fs|
  {
    hide CleanKey, CleanValue, IsPadding, IsLineEnd;
    if fs != [] {
      HeldClean(fs[1..]);
      assert IsLineForm(fs[0]);
    }
  }

  lemma FormsStart(fs: seq<LineForm>)
    requires AreLineForms(fs) && fs != []
    ensures FormsText(fs) != "" && FormsText(fs)[0] != SP && FormsText(fs)[0] != HT
  {
    hide IsPadding, CleanValue, IsLineEnd;
    assert IsLineForm(fs[0]) && IsToken(fs[0].key[0]);
  }

  lemma HeldParts(fs: seq<LineForm>)
    requires fs != []
    ensures Held(fs)[0] == (fs[0].key, fs[0].value) && Held(fs)[1..] == Held(fs[1..]) && Held(fs) != []
  {
  }

  /** A block of such lines, in any mixture, is read as exactly its pairs in order. */
  lemma {:induction false} FormsOver(m: Machine, fs: seq<LineForm>) returns (w: Machine)
    requires m.core.errno.Ok? && m.core.state.HeaderFieldStart? && !EndsIn(m.trace, Field)
    requires AreLineForms(fs) && CleanPairs(Held(fs)) && BlockMatcher(m.core.m, Held(fs)).errno.Ok?
    ensures Over(m, FormsText(fs), w) && BetweenLines(w.core.state)
    ensures Is(Settle(w), m.core.(m := BlockMatcher(m.core.m, Held(fs)).m), m.trace + LineEvents(Held(fs)))
    decreases |fs|
  {
    hide Transition, Step, Over, LineMatcher, CleanKey, CleanValue, TokenFlags, Emit, Run, EndsIn, IsLineForm, LineText;
    if fs == [] {
      w := m;
      OverNothing(m);
      assert m.trace + [] == m.trace;
    } else {
      HeldParts(fs);
      HeldClean(fs[1..]);
      var f := fs[0];
      var a := FormOver(m, f);
      var b := Settle(a);
      var e := [Data(Field, f.key), Data(Value, f.value)];
      ValueIsLast(m.trace, f.key, f.value);
      w := FormsOver(b, fs[1..]);
      assert m.trace + LineEvents(Held(fs)) == (m.trace + e) + LineEvents(Held(fs[1..]));
      if fs[1..] == [] {
        assert FormsText(fs) == LineText(f) + "" == LineText(f);
        w := a;
      } else {
        FormsStart(fs[1..]);
        OverSettled(a, FormsText(fs[1..]), w);
        OverTrans(m, LineText(f), a, FormsText(fs[1..]), w);
      }
    }
  }

  /* ---- values on several lines --------------------------------------------------- */

  /** A value goes on behind a line end, with the white space that the next line begins with. */
  lemma FoldOver(m: Machine, eol: string, ws: char, text: string) returns (w: Machine)
    requires m.core.errno.Ok? && m.core.state.HeaderValue? && m.core.m.hs.General? && EndsIn(m.trace, Value)
    requires IsLineEnd(eol) && (ws == SP || ws == HT)
    requires forall i :: 0 <= i < |text| ==> IsHeaderChar(text[i]) && text[i] != CR && text[i] != LF
    ensures Over(m, eol + ([ws] + text), w) && EndsIn(w.trace, Value)
    ensures Is(w, m.core.(m := m.core.m.(index := 0)), Emit(m.trace, Data(Value, [ws] + text)))
  {
    hide Transition, Step, Over, IsHeaderChar, Emit, ValueByte;
    var a := EndsLine(m, eol);
    FoldStarts(a, ws);
    OverOctet(a, ws);
    var b := Step(a, ws);
    EmitEnds(a.trace, Value, [ws]);
    PlainRun(b.core.m, text);
    w := ValueOver(b, text);
    OverTrans(a, [ws], b, text, w);
    EmitExtend(a.trace, Value, [ws], text);
    OverTrans(m, eol, a, [ws] + text, w);
  }

  lemma EndsLine(m: Machine, eol: string) returns (w: Machine)
    requires m.core.errno.Ok? && m.core.state.HeaderValue? && EndsIn(m.trace, Value) && IsLineEnd(eol)
    ensures Over(m, eol, w) && Is(w, m.core.(state := HeaderValueLws), m.trace)
  {
    hide Transition, Step, Over, Emit;
    if eol == "\n" {
      ValueFeed(m);
      w := Step(m, LF);
      assert [LF] == eol;
    } else {
      assert IsHeaderChar(CR);
      ValueEnd(m);
      OverOctet(m, CR);
      LineFeed(Step(m, CR));
      OverThen(m, [CR], Step(m, CR), LF);
      w := Step(Step(m, CR), LF);
      assert [CR] + [LF] == eol;
    }
  }

  lemma FoldStarts(m: Machine, ws: char)
    requires m.core.errno.Ok? && m.core.state.HeaderValueLws? && m.core.m.hs.General? && (ws == SP || ws == HT)
    ensures
      Is(Step(m, ws), m.core.(state := HeaderValue, m := m.core.m.(index := 0)), Emit(m.trace, Data(Value, [ws])))
  {
    hide StartStep, StatusLineStep, UrlPhaseStep, RequestVersionStep, BodyStep, Emit;
    OneSet(m.trace, Value);
  }

  /** In a field that means nothing to the parser, no octet changes the matcher. */
  lemma {:induction false} PlainRun(m: Matcher, text: string)
    requires m.hs.General?
    ensures ValueRun(m, text) == Now(m)
    decreases |text|
  {
    if text != "" { PlainRun(m, text[1..]); }
  }

  /** One more line of a value. */
  datatype Fold = Fold(eol: string, ws: char, text: string)

  predicate AreFolds(gs: seq<Fold>) {
    forall i :: 0 <= i < |gs| ==>
      && IsLineEnd(gs[i].eol) && (gs[i].ws == ' ' || gs[i].ws == '\t')
      && forall k :: 0 <= k < |gs[i].text| ==> IsHeaderChar(gs[i].text[k]) && gs[i].text[k] !in "\r\n"
  }

  function FoldsText(gs: seq<Fold>): string {
    if gs == [] then "" else gs[0].eol + ([gs[0].ws] + gs[0].text) + FoldsText(gs[1..])
  }

  /** What the lines add to the value. */
  function FoldsValue(gs: seq<Fold>): string {
    if gs == [] then "" else [gs[0].ws] + gs[0].text + FoldsValue(gs[1..])
  }

  lemma {:induction false} FoldsOver(m: Machine, gs: seq<Fold>) returns (w: Machine)
    requires m.core.errno.Ok? && m.core.state.HeaderValue? && m.core.m.hs.General? && EndsIn(m.trace, Value)
    requires m.core.m.index == 0 && AreFolds(gs)
    ensures Over(m, FoldsText(gs), w) && EndsIn(w.trace, Value)
    ensures Is(w, m.core, Emit(m.trace, Data(Value, FoldsValue(gs))))
    decreases |gs|
  {
    hide Transition, Step, Over, IsHeaderChar, Emit, IsLineEnd;
    if gs == [] {
      w := m;
      OverNothing(m);
      EmitNothing(m.trace, Value);
    } else {
      var g := gs[0];
      assert forall i :: 0 <= i < |g.text| ==> g.text[i] !in "\r\n";
      var a := FoldOver(m, g.eol, g.ws, g.text);
      w := FoldsOver(a, gs[1..]);
      OverTrans(m, g.eol + ([g.ws] + g.text), a, FoldsText(gs[1..]), w);
      EmitExtend(m.trace, Value, [g.ws] + g.text, FoldsValue(gs[1..]));
    }
  }

  /** The name means nothing to the parser. */
  predicate IsPlain(k: string) {
    CleanKey(k) && Meaning(LowerName(k)).None? && !Begins("content-length", LowerName(k))
  }

  lemma PlainName(m: Matcher, k: string)
    requires IsPlain(k)
    ensures
      var n := Name(m, k);
      && n.errno.Ok? && n.m == m.(index := n.m.index, hs := n.m.hs)
      && !IsFraming(n.m.hs) && !n.m.hs.MatchingTokenStart?
  {
    hide NameRun;
    NameFlags(m, k);
    NameMeans(m, k, HConnection);
    NameMeans(m, k, HContentLength);
    NameMeans(m, k, HTransferEncoding);
    NameMeans(m, k, HUpgrade);
    StartReads(m, k[0]);
    NameRunReads(NameStart(m, k[0]), k[1..], [TokenLower(k[0])]);
  }

  lemma PlainValue(m: Matcher, v: string)
    requires v != "" && !IsFraming(m.hs) && !m.hs.MatchingTokenStart?
    ensures ValueOf(m, v) == Now(m.(index := 0, hs := General))
  {
    PlainRun(m.(index := 0, hs := General), v[1..]);
  }

  /** A value on several lines, in such a field. */
  lemma FoldedText(m: Machine, v: string, gs: seq<Fold>, eol: string) returns (w: Machine)
    requires m.core.errno.Ok? && m.core.state.HeaderValueDiscardWs? && CleanValue(v) && v != "" && IsLineEnd(eol)
    requires !IsFraming(m.core.m.hs) && !m.core.m.hs.MatchingTokenStart? && AreFolds(gs)
    ensures Over(m, v + (FoldsText(gs) + eol), w)
    ensures
      Is(w, m.core.(state := HeaderValueLws, m := m.core.m.(index := 0, hs := General)),
         Emit(m.trace, Data(Value, v + FoldsValue(gs))))
  {
    PlainValue(m.core.m, v);
    hide Transition, Step, Over, ValueOf, CleanValue, IsLineEnd, FoldsText, FoldsValue, Emit, AreFolds, IsFraming;
    var c := ValueWhole(m, v);
    var d := FoldsOver(c, gs);
    EmitExtend(m.trace, Value, v, FoldsValue(gs));
    w := EndsLine(d, eol);
    OverTrans(c, FoldsText(gs), d, eol, w);
    OverTrans(m, v, c, FoldsText(gs) + eol, w);
  }

  /** A field that means nothing to the parser, with its value on any number of lines. */
  lemma FoldedReads(m: Machine, f: LineForm, gs: seq<Fold>) returns (w: Machine)
    requires m.core.errno.Ok? && m.core.state.HeaderFieldStart? && !EndsIn(m.trace, Field) && IsLineForm(f)
    requires IsPlain(f.key) && f.value != "" && AreFolds(gs)
    ensures Over(m, f.key + ":" + (f.padding + (f.value + (FoldsText(gs) + f.eol))), w)
    ensures w.core.state.HeaderValueLws?
    ensures
      Is(Settle(w), m.core.(m := m.core.m.(index := 0, hs := General)),
         m.trace + [Data(Field, f.key), Data(Value, f.value + FoldsValue(gs))])
  {
    var k, v := f.key, f.value;
    PlainName(m.core.m, k);
    FieldThen(m.trace, k, v + FoldsValue(gs));
    hide Transition, Step, Over, Name, CleanKey, CleanValue, IsPadding, IsLineEnd, FoldsText, FoldsValue, AreFolds,
      Meaning, EndsIn, Emit, IsFraming, IsPlain;
    var a := ColonOver(m, k);
    var b := PaddingOver(a, f.padding);
    w := FoldedText(b, v, gs, f.eol);
    OverTrans(a, f.padding, b, v + (FoldsText(gs) + f.eol), w);
    OverTrans(m, k + ":", a, f.padding + (v + (FoldsText(gs) + f.eol)), w);
  }

  lemma FieldThen(tr: seq<Event>, k: string, v: string)
    requires !EndsIn(tr, Field)
    ensures Emit(Emit(tr, Data(Field, k)), Data(Value, v)) == tr + [Data(Field, k), Data(Value, v)]
  {
  }
}
