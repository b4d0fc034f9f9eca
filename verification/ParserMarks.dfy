/**
 The marks of `http_parser_execute`: a data callback is held back until its
 run of octets ends or the buffer does.
 */
module ParserMarks {
  import opened ParserTypes
  import opened ParserStep
  import opened ParserMachine
  import opened ParserCallbacks
  import opened ParserInvariant
  import opened ParserRuns

  type Marks = map<Mark, nat>

  /** What `MARK`, `CALLBACK_DATA` and `CALLBACK_NOTIFY` do at position `p`. */
  function Perform(log: seq<Event>, marks: Marks, acts: seq<Act>, data: string, p: nat): (r: (seq<Event>, Marks))
    requires p <= |data| && forall k :: k in marks ==> marks[k] <= p
    ensures forall k :: k in r.1 ==> r.1[k] <= p
    decreases |acts|
  {
    if acts == [] then (log, marks)
    else
      match acts[0]
      case Set(k) => Perform(log, if k in marks then marks else marks[k := p], acts[1..], data, p)
      case Flush(k) =>
        if k in marks then Perform(Emit(log, Data(k, data[marks[k]..p])), marks - {k}, acts[1..], data, p)
        else Perform(log, marks, acts[1..], data, p)
      case Note(e) => Perform(Emit(log, e), marks, acts[1..], data, p)
  }

  function SetAt(k: Option<Mark>, p: nat): Marks { if k.None? then map[] else map[k.value := p] }

  /** `k` alone is open, and its pending octets complete the reference's trace. */
  predicate Pends(k: Mark, marks: Marks, log: seq<Event>, tr: seq<Event>, data: string, p: nat) {
    && p <= |data| && k in marks && marks[k] <= p && marks == map[k := marks[k]]
    && EndsIn(tr, k)
    && Emit(log, Data(k, data[marks[k]..p])) == tr
  }

  /** A body mark may stay open after the last octet of a chunk, or of the buffer. */
  predicate BodyPends(s: State, data: string, p: nat) {
    s.ChunkDataAlmostDone? || (Streams(s) && p == |data|)
  }

  /** The callbacks made so far lack exactly what the open mark holds back. */
  predicate Pending(marks: Marks, log: seq<Event>, m: Machine, data: string, p: nat) {
    match OpenMark(m.core.state)
    case Some(k) => Pends(k, marks, log, m.trace, data, p)
    case None =>
      (marks == map[] && log == m.trace)
      || (BodyPends(m.core.state, data, p) && Pends(Mark.Body, marks, log, m.trace, data, p))
  }

  /** `t` is `s`, except that its last data callback may be shorter or missing. */
  predicate Lags(t: seq<Event>, s: seq<Event>) {
    t == s
    || (s != [] && s[|s| - 1].Data?
        && (t == s[..|s| - 1]
            || (EndsIn(t, s[|s| - 1].mark) && t[..|t| - 1] == s[..|s| - 1]
                && t[|t| - 1].text <= s[|s| - 1].text)))
  }

  lemma EmitLags(log: seq<Event>, k: Mark, text: string)
    ensures Lags(log, Emit(log, Data(k, text)))
  {
  }

  /** Marks set during a step hold no octet yet, as in the reference. */
  lemma {:induction false} PerformFresh(log: seq<Event>, k: Option<Mark>, acts: seq<Act>, data: string, p: nat)
    requires LeftBy(acts, k).Open? && p <= |data|
    ensures Perform(log, SetAt(k, p), acts, data, p) == (Interpret(log, acts, k), SetAt(LeftBy(acts, k).mark, p))
    decreases |acts|
  {
    if acts != [] {
      match acts[0]
      case Set(j) => PerformFresh(log, Some(j), acts[1..], data, p);
      case Flush(j) =>
        if k == Some(j) {
          assert data[p..p] == "";
          assert SetAt(k, p) - {j} == map[];
          PerformFresh(Emit(log, Data(j, "")), None, acts[1..], data, p);
        } else {
          PerformFresh(log, None, acts[1..], data, p);
        }
      case Note(e) => PerformFresh(Emit(log, e), None, acts[1..], data, p);
    }
  }

  /** A mark set earlier either stays open through the step or is flushed first. */
  lemma PerformOld(k: Mark, marks: Marks, log: seq<Event>, tr: seq<Event>, acts: seq<Act>, data: string, p: nat)
    requires Pends(k, marks, log, tr, data, p) && LeftBy(acts, Some(k)).Open? && acts != []
    ensures Perform(log, marks, acts, data, p)
      == (Interpret(tr, acts, Some(k)), SetAt(LeftBy(acts, Some(k)).mark, p))
  {
    assert acts[0] == Flush(k);
    assert marks - {k} == map[];
    EmitNothing(tr, k);
    PerformFresh(tr, None, acts[1..], data, p);
  }

  lemma PendsMore(k: Mark, marks: Marks, log: seq<Event>, tr: seq<Event>, data: string, p: nat, q: nat)
    requires Pends(k, marks, log, tr, data, p) && p <= q <= |data|
    ensures Pends(k, marks, log, Emit(tr, Data(k, data[p..q])), data, q)
  {
    assert data[marks[k]..p] + data[p..q] == data[marks[k]..q];
    EmitExtend(log, k, data[marks[k]..p], data[p..q]);
    EmitEnds(tr, k, data[p..q]);
  }

  lemma PendsNew(k: Mark, log: seq<Event>, data: string, p: nat, q: nat)
    requires p <= q <= |data|
    ensures Pends(k, map[k := p], log, Emit(log, Data(k, data[p..q])), data, q)
  {
    EmitEnds(log, k, data[p..q]);
  }

  /** A step whose marks were all set at `p`, or whose open mark was flushed. */
  lemma AfterFresh(m: Machine, log: seq<Event>, marks: Marks, data: string, p: nat)
    requires m.core.errno.Ok? && p < |data|
    requires
      var o := Transition(m.core, m.jumped, data[p]);
      var l := LeftBy(o.acts, OpenMark(m.core.state));
      && InOrder(OpenMark(m.core.state), o)
      && log == Interpret(m.trace, o.acts, OpenMark(m.core.state)) && marks == SetAt(l.mark, p)
    ensures
      var w := Step(m, data[p]);
      if w.core.errno.Ok? then Pending(marks, log, w, data, p + 1) else Lags(log, w.trace)
  {
    hide Transition, LeftBy, Interpret, Lags;
    var w := Step(m, data[p]);
    if w.core.errno.Ok? {
      assert data[p..p + 1] == [data[p]];
      if OpenMark(w.core.state).Some? { PendsNew(OpenMark(w.core.state).value, log, data, p, p + 1); }
    } else {
      assert log == w.trace;
      LagsSame(log);
    }
  }

  lemma LagsSame(t: seq<Event>)
    ensures Lags(t, t)
  {
  }

  lemma AlmostDoneActs(c: Core, ch: char)
    requires c.state.ChunkDataAlmostDone?
    ensures Transition(c, false, ch).acts == [] || Transition(c, false, ch).acts == [Flush(Mark.Body)]
    ensures Transition(c, false, ch).acts == [] ==> !Transition(c, false, ch).core.errno.Ok?
  {
    assert [Flush(Mark.Body)] + [] == [Flush(Mark.Body)];
    hide StartStep, StatusLineStep, UrlPhaseStep, RequestVersionStep, HeaderStep;
  }

  /** One octet outside the bulk states keeps the callbacks in step with the reference. */
  lemma OctetPends(m: Machine, log: seq<Event>, marks: Marks, data: string, p: nat)
    requires m.core.errno.Ok? && !m.jumped && p < |data| && !Streams(m.core.state)
    requires Pending(marks, log, m, data, p) && forall k :: k in marks ==> marks[k] <= p
    ensures
      var r := Perform(log, marks, Transition(m.core, false, data[p]).acts, data, p);
      var w := Step(m, data[p]);
      if w.core.errno.Ok? then Pending(r.1, r.0, w, data, p + 1) else Lags(r.0, w.trace)
  {
    hide Transition, Step, Interpret, Lags, Perform, LeftBy;
    var k := OpenMark(m.core.state);
    var o := Transition(m.core, false, data[p]);
    TransitionInOrder(m.core, false, data[p]);
    assert data[p..p + 1] == [data[p]];
    if k.None? && marks == map[] {
      PerformFresh(log, None, o.acts, data, p);
      AfterFresh(m, Interpret(log, o.acts, None), SetAt(LeftBy(o.acts, None).mark, p), data, p);
    } else if o.acts == [] {
      QuietPends(m, log, marks, data, p);
    } else if k.Some? {
      PerformOld(k.value, marks, log, m.trace, o.acts, data, p);
      AfterFresh(m, Interpret(m.trace, o.acts, k), SetAt(LeftBy(o.acts, k).mark, p), data, p);
    } else {
      AlmostDoneActs(m.core, data[p]);
      BodyFlush(m.trace);
      PerformOld(Mark.Body, marks, log, m.trace, o.acts, data, p);
      AfterFresh(m, m.trace, map[], data, p);
    }
  }

  lemma BodyFlush(tr: seq<Event>)
    requires EndsIn(tr, Mark.Body)
    ensures Interpret(tr, [Flush(Mark.Body)], Some(Mark.Body)) == tr == Interpret(tr, [Flush(Mark.Body)], None)
    ensures LeftBy([Flush(Mark.Body)], Some(Mark.Body)) == Open(None) == LeftBy([Flush(Mark.Body)], None)
  {
    EmitNothing(tr, Mark.Body);
    assert [Flush(Mark.Body)][1..] == [];
  }

  /** A step without callbacks prolongs the open run, or fails. */
  lemma QuietPends(m: Machine, log: seq<Event>, marks: Marks, data: string, p: nat)
    requires m.core.errno.Ok? && !m.jumped && p < |data| && !Streams(m.core.state) && marks != map[]
    requires Pending(marks, log, m, data, p) && forall k :: k in marks ==> marks[k] <= p
    requires
      var o := Transition(m.core, false, data[p]);
      o.acts == [] && InOrder(OpenMark(m.core.state), o)
    ensures
      var r := Perform(log, marks, [], data, p);
      var w := Step(m, data[p]);
      if w.core.errno.Ok? then Pending(r.1, r.0, w, data, p + 1) else Lags(r.0, w.trace)
  {
    hide Transition, Lags;
    var w := Step(m, data[p]);
    assert data[p..p + 1] == [data[p]];
    if OpenMark(m.core.state).Some? {
      var k := OpenMark(m.core.state).value;
      EmitLags(log, k, data[marks[k]..p]);
      if w.core.errno.Ok? { PendsMore(k, marks, log, m.trace, data, p, p + 1); }
    } else {
      AlmostDoneActs(m.core, data[p]);
      EmitLags(log, Mark.Body, data[marks[Mark.Body]..p]);
    }
  }
}
