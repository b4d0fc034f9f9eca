/**
 How the parser reads whole words: runs over concatenated text, field names and
 values, and what the header matchers recognise.
 */
module ParserWords {
  import opened Ascii
  import opened ParserTypes
  import opened ParserStep
  import opened ParserMachine
  import opened ParserRuns
  import opened Fragmentation
  import opened FieldNames

  /** From `m` the parser accepts all of `s`, under any fragmentation, and arrives in `w`. */
  ghost predicate Over(m: Machine, s: string, w: Machine) {
    m.core.errno.Ok? && w.core.errno.Ok? && Run(m, s) == Scanned(w, |s|) && NeverSkips(m, s)
  }

  lemma OverNothing(m: Machine)
    requires m.core.errno.Ok?
    ensures Over(m, "", m)
  {
    hide Transition;
  }

  lemma OverOctet(m: Machine, ch: char)
    requires m.core.errno.Ok? && Step(m, ch).core.errno.Ok?
    requires m.core.state.HeaderValue? ==> IsHeaderChar(ch)
    ensures Over(m, [ch], Step(m, ch))
  {
    hide Transition, Step;
    var w := Step(m, ch);
    assert [ch][1..] == "" && [ch][0] == ch;
    assert Run(w, "") == Scanned(w, 0) && NeverSkips(w, "");
  }

  lemma {:induction false} OverTrans(m: Machine, a: string, w: Machine, b: string, x: Machine)
    requires Over(m, a, w) && Over(w, b, x)
    ensures Over(m, a + b, x)
    decreases |a|
  {
    hide Transition, Step, Skips;
    if a == "" {
      assert a + b == b;
    } else {
      assert (a + b)[0] == a[0] && (a + b)[1..] == a[1..] + b;
      var v := Step(m, a[0]);
      OverTrans(v, a[1..], w, b, x);
    }
  }

  lemma OverThen(m: Machine, a: string, w: Machine, ch: char)
    requires Over(m, a, w) && Step(w, ch).core.errno.Ok?
    requires w.core.state.HeaderValue? ==> IsHeaderChar(ch)
    ensures Over(m, a + [ch], Step(w, ch))
  {
    hide Transition, Step, Run, NeverSkips;
    OverOctet(w, ch);
    OverTrans(m, a, w, [ch], Step(w, ch));
  }

  /* ---- single octets of a header line --------------------------------- */

  /** The parts of a machine that the callbacks' owner can see. */
  predicate Is(w: Machine, c: Core, tr: seq<Event>) { w.core == c && w.trace == tr }

  /** A step that neither continues a data callback nor starts one. */
  lemma PlainStep(m: Machine, ch: char, o: Out)
    requires Transition(m.core, m.jumped, ch) == o && OpenMark(m.core.state).None? && OpenMark(o.core.state).None?
    ensures Is(Step(m, ch), o.core, Interpret(m.trace, o.acts, None)) && (o.clears ==> Step(m, ch).hdr == 0)
  {
    hide Transition, Interpret, OpenMark;
  }

  lemma FieldStarts(c: Core, ch: char)
    requires IsToken(ch)
    ensures OnHeaderFieldStart(c, ch)
      == Out(c.(state := HeaderField, m := NameStart(c.m, ch)), [Set(Field)] + [], false, false)
  {
    hide FirstFieldState;
    assert ch != CR && ch != LF;
  }

  lemma NameFirst(m: Machine, ch: char)
    requires m.core.errno.Ok? && m.core.state.HeaderFieldStart? && IsToken(ch)
    ensures Is(Step(m, ch), m.core.(state := HeaderField, m := NameStart(m.core.m, ch)),
               Emit(m.trace, Data(Field, [ch])))
  {
    hide Transition, Interpret, Emit, FirstFieldState, OnHeaderFieldStart;
    FieldTurn(m.core, m.jumped, ch);
    FieldStarts(m.core, ch);
    OneSet(m.trace, Field);
  }

  lemma OneSet(tr: seq<Event>, k: Mark)
    ensures Interpret(tr, [Set(k)] + [], None) == tr
  {
    assert [Set(k)] + [] == [Set(k)];
    assert Interpret(tr, [Set(k)], None) == Interpret(tr, [], Some(k));
  }

  lemma OneFlush(tr: seq<Event>, k: Mark)
    requires EndsIn(tr, k)
    ensures Interpret(tr, [Flush(k)] + [], Some(k)) == tr
  {
    assert [Flush(k)] + [] == [Flush(k)];
    EmitNothing(tr, k);
    assert Interpret(tr, [Flush(k)], Some(k)) == Interpret(Emit(tr, Data(k, "")), [], None);
  }

  lemma Colon(m: Machine)
    requires m.core.errno.Ok? && m.core.state.HeaderField? && EndsIn(m.trace, Field)
    ensures Is(Step(m, ':'), m.core.(state := HeaderValueDiscardWs), m.trace)
  {
    hide StartStep, StatusLineStep, UrlPhaseStep, RequestVersionStep, BodyStep, Emit;
    OneFlush(m.trace, Field);
  }

  lemma Space(m: Machine, ch: char)
    requires m.core.errno.Ok? && m.core.state.HeaderValueDiscardWs? && (ch == SP || ch == HT)
    ensures Is(Step(m, ch), m.core, m.trace)
  {
    hide StartStep, StatusLineStep, UrlPhaseStep, RequestVersionStep, BodyStep, OnHeaderValueStart;
  }

  lemma ValueFirst(m: Machine, ch: char)
    requires m.core.errno.Ok? && m.core.state.HeaderValueDiscardWs? && ch != SP && ch != HT && ch != CR && ch != LF
    requires FirstValueByte(m.core.m, ch).errno.Ok?
    ensures Is(Step(m, ch), m.core.(state := HeaderValue, m := FirstValueByte(m.core.m, ch).m),
               Emit(m.trace, Data(Value, [ch])))
  {
    hide StartStep, StatusLineStep, UrlPhaseStep, RequestVersionStep, BodyStep, Emit, FirstValueByte;
    OneSet(m.trace, Value);
  }

  lemma ValueEnd(m: Machine)
    requires m.core.errno.Ok? && m.core.state.HeaderValue? && EndsIn(m.trace, Value)
    ensures Is(Step(m, CR), m.core.(state := HeaderAlmostDone), m.trace)
  {
    hide StartStep, StatusLineStep, UrlPhaseStep, RequestVersionStep, BodyStep, Emit, ValueByte;
    OneFlush(m.trace, Value);
  }

  lemma LineFeed(m: Machine)
    requires m.core.errno.Ok? && (m.core.state.HeaderAlmostDone? || m.core.state.HeaderValueDiscardWsAlmostDone?)
    ensures Is(Step(m, LF),
               m.core.(state := if m.core.state.HeaderAlmostDone? then HeaderValueLws else HeaderValueDiscardLws),
               m.trace)
  {
    hide StartStep, StatusLineStep, UrlPhaseStep, RequestVersionStep, BodyStep;
  }

  lemma EmptyEnd(m: Machine)
    requires m.core.errno.Ok? && m.core.state.HeaderValueDiscardWs?
    ensures Is(Step(m, CR), m.core.(state := HeaderValueDiscardWsAlmostDone), m.trace)
  {
    hide StartStep, StatusLineStep, UrlPhaseStep, RequestVersionStep, BodyStep, OnHeaderValueStart;
  }
}
