/**
 The blank lines: the one that ends a header block, and the one that ends the
 trailer of a chunked message.
 */
module MessageEnds {
  import opened Ascii
  import opened ParserTypes
  import opened ParserStep
  import opened ParserMachine
  import opened ParserRuns
  import opened ParserWords
  import opened ChunkedCoding

  /** The struct after the message-complete callback. */
  function Completed(c: Core): Core { Complete(c, false).core }

  lemma BlankReturn(m: Machine)
    requires m.core.errno.Ok? && m.core.state.HeaderFieldStart?
    ensures Is(Step(m, CR), m.core.(state := HeadersAlmostDone), m.trace)
  {
    hide Transition, OnHeadersAlmostDone;
    FieldTurn(m.core, m.jumped, CR);
  }

  lemma TwoNotesMore(tr: seq<Event>, e: Event, f: Event)
    ensures Interpret(tr, [Note(e)] + [Note(f)], None) == Emit(Emit(tr, e), f)
  {
    assert [Note(e)] + [Note(f)] == [Note(e), Note(f)];
    TwoNotes(tr, e, f);
  }

  lemma TrailingOut(c: Core)
    requires c.m.flags.trailing
    ensures
      var o := OnHeadersAlmostDone(c, LF);
      && o.core == Completed(c.(state := MessageDone)) && (c.resets ==> o.clears)
      && o.acts == [Note(ChunkComplete(true))] + [Note(MessageComplete)]
  {
    hide ShouldKeepAlive, OnHeadersDone, Init, NewMessage;
  }

  lemma TrailingFeed(m: Machine)
    requires m.core.errno.Ok? && m.core.state.HeadersAlmostDone? && m.core.m.flags.trailing
    ensures Is(Step(m, LF), Completed(m.core.(state := MessageDone)), m.trace + [ChunkComplete(true), MessageComplete])
    ensures m.core.resets ==> Step(m, LF).hdr == 0
  {
    hide Transition, Step, OnHeadersAlmostDone, Complete, Interpret;
    FieldTurn(m.core, m.jumped, LF);
    TrailingOut(m.core);
    CompleteState(m.core.(state := MessageDone));
    PlainStep(m, LF, OnHeadersAlmostDone(m.core, LF));
    TwoNotesMore(m.trace, ChunkComplete(true), MessageComplete);
    assert m.trace + [ChunkComplete(true)] + [MessageComplete] == m.trace + [ChunkComplete(true), MessageComplete];
  }

  /** The blank line that ends a chunked message. */
  lemma TrailingBlankOver(m: Machine) returns (w: Machine)
    requires m.core.errno.Ok? && m.core.state.HeaderFieldStart? && m.core.m.flags.trailing
    ensures Over(m, CRLF, w)
    ensures Is(w, Completed(m.core.(state := MessageDone)), m.trace + [ChunkComplete(true), MessageComplete])
    ensures m.core.resets ==> w.hdr == 0
  {
    hide Transition, Step, Over, Complete;
    BlankReturn(m);
    OverOctet(m, CR);
    var a := Step(m, CR);
    TrailingFeed(a);
    CompleteState(a.core.(state := MessageDone));
    OverThen(m, [CR], a, LF);
    w := Step(a, LF);
    assert [CR] + [LF] == CRLF;
    assert a.core.(state := MessageDone) == m.core.(state := MessageDone);
  }

  /** A header block that says where the message ends; a message that opens a tunnel ends with it. */
  predicate Announces(c: Core) {
    && !c.m.flags.trailing && !c.m.flags.skipBody && (c.line.verb.CONNECT? ==> !Bodied(c.m))
    && !(c.m.flags.chunked && c.m.flags.contentLength)
    && (c.m.flags.chunked || c.m.contentLength != U64_MAX || !MessageNeedsEof(c.line, c.m))
  }

  /** A body follows the header block. */
  predicate Bodied(m: Matcher) { m.flags.chunked || (m.contentLength > 0 && m.contentLength != U64_MAX) }

  /** Where the header block leaves the parser. */
  function BodyStart(c: Core): State {
    if c.m.flags.chunked then ChunkSizeStart else BodyIdentity
  }

  function Upgraded(c: Core): Core {
    c.(upgrade := (c.m.flags.upgrade && c.m.flags.connUpgrade) || c.line.verb.CONNECT?)
  }

  lemma NothingFollows(c: Core)
    requires Announces(c) && !Bodied(c.m)
    ensures OnHeadersDone(Upgraded(c).(state := HeadersDone), LF).core == Completed(Upgraded(c).(state := HeadersDone))
    ensures OnHeadersDone(Upgraded(c).(state := HeadersDone), LF).acts == [Note(MessageComplete)]
    ensures OnHeadersDone(Upgraded(c).(state := HeadersDone), LF).clears
  {
  }

  lemma BodyFollows(c: Core)
    requires Announces(c) && Bodied(c.m)
    ensures OnHeadersDone(Upgraded(c).(state := HeadersDone), LF).core == Upgraded(c).(state := BodyStart(c))
    ensures OnHeadersDone(Upgraded(c).(state := HeadersDone), LF).acts == []
    ensures OnHeadersDone(Upgraded(c).(state := HeadersDone), LF).clears
  {
  }

  lemma AlmostDoneOut(c: Core)
    requires Announces(c)
    ensures
      var d := Upgraded(c);
      OnHeadersAlmostDone(c, LF)
        == Then([Note(HeadersComplete(d.line, ShouldKeepAlive(d.line, d.m)))],
          OnHeadersDone(d.(state := HeadersDone), LF))
  {
    hide OnHeadersDone, ShouldKeepAlive;
  }

  lemma HeadFeed(m: Machine)
    requires m.core.errno.Ok? && m.core.state.HeadersAlmostDone? && Announces(m.core)
    ensures
      var c := Upgraded(m.core);
      var e := HeadersComplete(c.line, ShouldKeepAlive(c.line, c.m));
      if Bodied(c.m) then
        Is(Step(m, LF), c.(state := BodyStart(c)), m.trace + [e])
      else
        Is(Step(m, LF), Completed(c.(state := HeadersDone)), m.trace + [e, MessageComplete])
    ensures Step(m, LF).hdr == 0
  {
    hide Transition, Step, OnHeadersAlmostDone, OnHeadersDone, Complete, Interpret, ShouldKeepAlive, Emit, Announces;
    FieldTurn(m.core, m.jumped, LF);
    AlmostDoneOut(m.core);
    var o := OnHeadersAlmostDone(m.core, LF);
    var c := Upgraded(m.core);
    var e := HeadersComplete(c.line, ShouldKeepAlive(c.line, c.m));
    if Bodied(c.m) {
      BodyFollows(m.core);
      PlainStep(m, LF, o);
      OneNote(m.trace, e);
      EmitPlain(m.trace, e);
    } else {
      NothingFollows(m.core);
      CompleteState(c.(state := HeadersDone));
      PlainStep(m, LF, o);
      TwoNotesMore(m.trace, e, MessageComplete);
      EmitPlain(m.trace, e);
      EmitPlain(m.trace + [e], MessageComplete);
      assert m.trace + [e] + [MessageComplete] == m.trace + [e, MessageComplete];
    }
  }

  /** The blank line that ends a header block. */
  lemma HeadBlankOver(m: Machine) returns (w: Machine)
    requires m.core.errno.Ok? && m.core.state.HeaderFieldStart? && Announces(m.core)
    ensures Over(m, CRLF, w)
    ensures
      var c := Upgraded(m.core);
      var e := HeadersComplete(c.line, ShouldKeepAlive(c.line, c.m));
      if Bodied(c.m) then Is(w, c.(state := BodyStart(c)), m.trace + [e])
      else Is(w, Completed(c.(state := HeadersDone)), m.trace + [e, MessageComplete])
    ensures w.hdr == 0
  {
    hide Transition, Step, Over, Complete, ShouldKeepAlive;
    BlankReturn(m);
    OverOctet(m, CR);
    var a := Step(m, CR);
    HeadFeed(a);
    var c := Upgraded(m.core);
    CompleteState(c.(state := HeadersDone));
    OverThen(m, [CR], a, LF);
    w := Step(a, LF);
    assert [CR] + [LF] == CRLF;
    assert Upgraded(a.core).(state := HeadersDone) == c.(state := HeadersDone);
  }

  /** The body of announced length, whole. */
  lemma SizedBodyOver(m: Machine, s: string) returns (w: Machine)
    requires m.core.errno.Ok? && m.core.state.BodyIdentity? && m.core.m.contentLength == |s| && s != ""
    ensures Over(m, s, w)
    ensures Is(w, Completed(BodyDone(m.core)), Emit(m.trace, Data(Mark.Body, s)) + [MessageComplete])
    ensures m.core.resets ==> w.hdr == 0
  {
    hide Transition, Step, Over, Complete, Emit, TakenCore;
    var n := |s|;
    var x := m;
    assert s == s[..n - 1] + [s[n - 1]];
    if n == 1 {
      assert s == [s[0]];
      OverNothing(m);
      assert "" + s == s;
    } else {
      x := DataOver(m, s[..n - 1]);
      TakenLeaves(m, s[..n - 1]);
    }
    LastBodyOctet(x, s[n - 1]);
    CompleteState(BodyDone(x.core));
    OverThen(m, s[..n - 1], x, s[n - 1]);
    w := Step(x, s[n - 1]);
    if n > 1 { EmitExtend(m.trace, Mark.Body, s[..n - 1], [s[n - 1]]); }
    EmitPlain(Emit(m.trace, Data(Mark.Body, s)), MessageComplete);
  }

  lemma EmitPlain(tr: seq<Event>, e: Event)
    requires !e.Data?
    ensures Emit(tr, e) == tr + [e]
  {
  }

  lemma TakenLeaves(m: Machine, s: string)
    requires m.core.errno.Ok? && m.core.state.BodyIdentity? && |s| < m.core.m.contentLength
    ensures
      var w := Taken(m, s);
      && w.core.errno.Ok? && w.core.state.BodyIdentity? && w.core.m.contentLength == m.core.m.contentLength - |s|
      && BodyDone(w.core) == BodyDone(m.core) && w.trace == Emit(m.trace, Data(Mark.Body, s))
  {
  }
}
