/**
 A response that does not say where it ends: its body is everything up to the end
 of the connection (section 3.3.3 of RFC 7230).
 */
module UntilClose {
  import opened Ascii
  import opened ParserTypes
  import opened ParserStep
  import opened ParserMachine
  import opened ParserRuns
  import opened ParserWords
  import opened HeaderLines
  import opened ChunkedCoding
  import opened MessageEnds
  import opened HttpEncoder
  import opened FirstLines
  import opened Persistence
  import opened RoundTrip

  /** What the header block of the message leaves in the matcher. */
  function LastMatcher(r: Message): Matcher
    requires CleanPairs(Fields(r))
  {
    BlockMatcher(LineEnd(r.first), Fields(r)).m
  }

  /** A well-formed response that announces nothing about its body, and does not switch protocols. */
  predicate Unframed(r: Message) {
    && CleanLine(r.first) && r.headers != [] && !MayBeSilent(r.first)
    && CleanPairs(Fields(r)) && Lawful(Fields(r), false)
    && !SaysChunked(Fields(r)) && !SaysLength(Fields(r)) && !r.chunked && r.trailer.None?
    && !(AsksUpgrade(Fields(r)) && SomeHolds(Fields(r), "upgrade"))
  }

  function LastText(r: Message): string
    requires Unframed(r)
  {
    TextOf(r)
  }

  /** The callbacks as long as the connection lasts. */
  function OpenEvents(r: Message): seq<Event>
    requires Unframed(r)
  {
    var line, body := LineOf(r.first), Concat(r.bodies);
    [MessageBegin, LineData(r.first)] + LineEvents(Fields(r))
    + [HeadersComplete(line, Persists(r.first, Fields(r)))]
      + (if body == "" then [] else [Data(Mark.Body, body)])
  }

  /** And with its end. */
  function LastEvents(r: Message): seq<Event>
    requires Unframed(r)
  {
    OpenEvents(r) + [MessageComplete]
  }

  /** A header block that does not say where the message ends. */
  predicate OpenEnded(c: Core) {
    && !c.m.flags.trailing && !c.m.flags.skipBody && !c.line.verb.CONNECT?
    && !c.m.flags.chunked && c.m.contentLength == U64_MAX && MessageNeedsEof(c.line, c.m)
    && !(c.m.flags.upgrade && c.m.flags.connUpgrade)
  }

  lemma OpenOut(c: Core)
    requires OpenEnded(c)
    ensures
      var o := OnHeadersAlmostDone(c, LF);
      && o.core == c.(state := BodyIdentityEof, upgrade := false)
      && o.acts == [Note(HeadersComplete(c.line, ShouldKeepAlive(c.line, c.m)))] + []
  {
    hide ShouldKeepAlive;
  }

  lemma OpenBlankOver(m: Machine) returns (w: Machine)
    requires m.core.errno.Ok? && m.core.state.HeaderFieldStart? && OpenEnded(m.core)
    ensures Over(m, CRLF, w)
    ensures
      Is(w, m.core.(state := BodyIdentityEof, upgrade := false),
         m.trace + [HeadersComplete(m.core.line, ShouldKeepAlive(m.core.line, m.core.m))])
  {
    hide Transition, Step, Over, ShouldKeepAlive, OnHeadersAlmostDone, MessageNeedsEof, Interpret;
    BlankReturn(m);
    OverOctet(m, CR);
    var a := Step(m, CR);
    var e := HeadersComplete(m.core.line, ShouldKeepAlive(m.core.line, m.core.m));
    SameEnd(m.core);
    FieldTurn(a.core, a.jumped, LF);
    OpenOut(a.core);
    PlainStep(a, LF, OnHeadersAlmostDone(a.core, LF));
    OneNote(a.trace, e);
    EmitPlain(a.trace, e);
    OverThen(m, [CR], a, LF);
    w := Step(a, LF);
    assert [CR] + [LF] == CRLF;
  }

  lemma SameEnd(c: Core)
    requires OpenEnded(c)
    ensures OpenEnded(c.(state := HeadersAlmostDone))
  {
    hide MessageNeedsEof;
  }

  lemma LineNeedsEof(f: FirstLine, m: Matcher)
    requires f.Reply? && !MayBeSilent(f) && !m.flags.skipBody && !m.flags.chunked && m.contentLength == U64_MAX
    ensures MessageNeedsEof(LineOf(f), m)
  {
  }

  lemma EndOfMessage(m: Machine)
    requires m.core.state.BodyIdentityEof? && m.core.resets
    ensures Is(AtEnd(m), Init(Both, true), m.trace + [MessageComplete])
  {
  }

  /**
   Its head, whatever body follows, and the end of the connection, of which the parser
   is told by a call without octets, are read as exactly that response, completed once.
   */
  lemma LastMessageOver(m: Machine, r: Message) returns (w: Machine)
    requires m.core == Init(Both, true) && Unframed(r)
    ensures Over(m, LastText(r), w) && w.core.state.BodyIdentityEof? && w.trace == m.trace + OpenEvents(r)
    ensures Is(AtEnd(w), Init(Both, true), m.trace + LastEvents(r))
  {
    hide Over, Transition, Step, LineText, Lines, CleanLine, Emit, BlockMatcher, Lawful, SaysChunked, Announced,
      SaysLength, CleanKey, CleanValue, ShouldKeepAlive, Persists, AsksUpgrade, SomeHolds, LineEvents, Concat,
      BodiesText, MayBeSilent, AtEnd, MessageNeedsEof, Grouped;
    LineIsPlain(r.first);
    SilentAsk(r.first);
    var ps, printed, body, line := Fields(r), Grouped(r.headers), Concat(r.bodies), LineOf(r.first);
    var a := FirstLineOver(m, r.first);
    BlockFraming(a.core.m, ps);
    BlockMeans(a.core.m, ps);
    KeepAliveMeans(r.first, ps);
    NothingAnnounced(ps, a.core.m.contentLength);
    LineNeedsEof(r.first, LastMatcher(r));
    var b := BlockOver(a, printed);
    var c := Settle(b);
    var d := OpenBlankOver(c);
    assert CRLF[0] == CR;
    OverSettled(b, CRLF, d);
    OverTrans(a, Lines(printed), b, CRLF, d);
    OverTrans(m, LineText(r.first), a, Lines(printed) + CRLF, d);
    PlainBodies(r.bodies);
    w := d;
    if body == "" {
      OverNothing(d);
      assert w.trace == m.trace + OpenEvents(r);
    } else {
      w := DataOver(d, body);
      TakenToEnd(d, body);
      var e := HeadersComplete(line, Persists(r.first, Fields(r)));
      assert d.trace == m.trace + [MessageBegin, LineData(r.first)] + LineEvents(ps) + [e];
      EmitAfter(m.trace + [MessageBegin, LineData(r.first)] + LineEvents(ps), e, body);
    }
    OverTrans(m, Head(r), d, body, w);
    EndOfMessage(w);
    assert w.trace == m.trace + OpenEvents(r);
    assert AtEnd(w).trace == m.trace + LastEvents(r);
  }

  lemma SilentAsk(f: FirstLine)
    requires !MayBeSilent(f)
    ensures f.Reply?
  {
  }

  lemma TakenToEnd(m: Machine, s: string)
    requires m.core.state.BodyIdentityEof?
    ensures Taken(m, s).core == m.core && Taken(m, s).trace == Emit(m.trace, Data(Mark.Body, s))
  {
  }

  lemma EmitAfter(tr: seq<Event>, e: Event, body: string)
    requires !e.Data?
    ensures Emit(tr + [e], Data(Mark.Body, body)) == tr + [e] + [Data(Mark.Body, body)]
  {
  }
}
