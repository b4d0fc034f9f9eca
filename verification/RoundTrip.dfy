/**
 What is encoded is what is decoded: whole messages, requests as well as
 responses, and sequences of them on one connection.
 */
module RoundTrip {
  import opened Ascii
  import opened Numerals
  import opened ParserTypes
  import opened ParserStep
  import opened ParserMachine
  import opened ParserWords
  import opened FieldNames
  import opened HeaderLines
  import opened ChunkedCoding
  import opened MessageEnds
  import opened FirstLines
  import opened Persistence
  import opened HttpEncoder

  /* ---- chunked bodies ------------------------------------------------- */

  type Trailer = Option<(string, string)>

  function BodiesText(chunked: bool, bodies: seq<string>): string {
    if bodies == [] then "" else BodyText(chunked, bodies[0]) + BodiesText(chunked, bodies[1..])
  }

  function ChunksEvents(bodies: seq<string>): seq<Event> {
    if bodies == [] then []
    else (if bodies[0] == "" then [] else ChunkEvents(bodies[0])) + ChunksEvents(bodies[1..])
  }

  predicate Storable(bodies: seq<string>) { forall i :: 0 <= i < |bodies| ==> |bodies[i]| <= MAX_STRING }

  /** The struct at the start of a chunk, whatever length was read last. */
  predicate AtChunk(w: Machine, m: Machine) {
    w.core.errno.Ok? && w.core.state.ChunkSizeStart?
      && w.core == m.core.(m := m.core.m.(contentLength := w.core.m.contentLength))
  }

  /** Bodies in chunks; an empty one prints nothing, so the last-chunk never comes early. */
  lemma {:induction false} ChunksOver(m: Machine, bodies: seq<string>) returns (w: Machine)
    requires m.core.errno.Ok? && m.core.state.ChunkSizeStart? && Storable(bodies)
    ensures Over(m, BodiesText(true, bodies), w) && AtChunk(w, m) && w.trace == m.trace + ChunksEvents(bodies)
    decreases |bodies|
  {
    hide Over, Transition, Step, Chunk;
    if bodies == [] {
      w := m;
      OverNothing(m);
      assert m.trace + [] == m.trace;
    } else {
      var a := m;
      if bodies[0] == "" {
        OverNothing(m);
      } else {
        a := ChunkOver(m, bodies[0]);
      }
      w := ChunksOver(a, bodies[1..]);
      OverTrans(m, BodyText(true, bodies[0]), a, BodiesText(true, bodies[1..]), w);
      assert bodies[0] == "" ==> [] + ChunksEvents(bodies[1..]) == ChunksEvents(bodies);
      assert bodies[0] != "" ==>
        m.trace + ChunkEvents(bodies[0]) + ChunksEvents(bodies[1..])
          == m.trace + (ChunkEvents(bodies[0]) + ChunksEvents(bodies[1..]));
    }
  }

  function TrailerLine(t: Trailer): string { if t.None? then "" else t.value.0 + ": " + t.value.1 + CRLF }

  /** Everything after the header block of a chunked message: bodies, at most one trailer, the end. */
  function ChunkedText(bodies: seq<string>, t: Trailer): string {
    BodiesText(true, bodies) + (TERMINATION + TrailerLine(t) + CRLF)
  }

  function TrailerEvents(t: Trailer): seq<Event> {
    if t.None? then [] else [Data(Field, t.value.0), Data(Value, Trimmed(t.value.1))]
  }

  function ChunkedEvents(bodies: seq<string>, t: Trailer): seq<Event> {
    ChunksEvents(bodies) + [ChunkHeader(0, false)] + TrailerEvents(t) + [ChunkComplete(true), MessageComplete]
  }

  predicate CleanTrailer(t: Trailer) {
    t.Some? ==>
      CleanKey(t.value.0) && CleanValue(Trimmed(t.value.1)) && Lawful([(t.value.0, Trimmed(t.value.1))], false)
  }

  lemma ReadOne(p: (string, string))
    ensures AsRead([p]) == [(p.0, Trimmed(p.1))]
  {
    assert [p][1..] == [];
  }

  lemma LastChunkOver(m: Machine) returns (w: Machine)
    requires m.core.errno.Ok? && m.core.state.ChunkSizeStart?
    ensures Over(m, TERMINATION, w) && w.trace == m.trace + [ChunkHeader(0, false)]
    ensures w.core == m.core.(state := HeaderFieldStart,
                              m := m.core.m.(contentLength := 0, flags := m.core.m.flags.(trailing := true)))
  {
    w := SizeLineOver(m, 0);
    assert ToHex(0) + CRLF == TERMINATION;
  }

  /** What the end of a chunked message leaves of the struct: nothing but a new start. */
  lemma TrailerOver(m: Machine, t: Trailer) returns (w: Machine)
    requires m.core.errno.Ok? && m.core.state.HeaderFieldStart? && m.core.m.flags.trailing && m.core.resets
    requires !EndsIn(m.trace, Field) && CleanTrailer(t) && !m.core.m.flags.contentLength
    ensures Over(m, TrailerLine(t) + CRLF, w)
    ensures Is(w, Init(Both, true), m.trace + TrailerEvents(t) + [ChunkComplete(true), MessageComplete]) && w.hdr == 0
  {
    hide Over, Transition, Step, Emit, LineMatcher, CleanKey, CleanValue, Lawful, AsRead, Trimmed;
    if t.None? {
      w := TrailingBlankOver(m);
      assert TrailerLine(t) + CRLF == CRLF;
      assert m.trace + [] == m.trace;
    } else {
      var (k, v) := t.value;
      LineFraming(m.core.m, k, Trimmed(v));
      var a := LineOver(m, k, v);
      w := TrailingBlankOver(Settle(a));
      assert CRLF[0] == CR;
      OverSettled(a, CRLF, w);
      OverTrans(m, k + ": " + v + CRLF, a, CRLF, w);
    }
  }

  /**
   The chunked round trip: for all bodies and at most one trailer, the parser
   reports the bodies in order, the trailer, and one message-complete, consuming
   every octet.
   */
  lemma ChunkedOver(m: Machine, bodies: seq<string>, t: Trailer) returns (w: Machine)
    requires m.core.errno.Ok? && m.core.state.ChunkSizeStart? && m.core.resets && !m.core.m.flags.contentLength
    requires Storable(bodies) && CleanTrailer(t)
    ensures Over(m, ChunkedText(bodies, t), w)
    ensures Is(w, Init(Both, true), m.trace + ChunkedEvents(bodies, t)) && w.hdr == 0
  {
    hide Over, Transition, Step, BodiesText, ChunksEvents, TrailerLine, CleanTrailer, Storable;
    var a := ChunksOver(m, bodies);
    var b := LastChunkOver(a);
    var rest := TrailerLine(t) + CRLF;
    w := TrailerOver(b, t);
    OverTrans(a, TERMINATION, b, rest, w);
    assert TERMINATION + rest == TERMINATION + TrailerLine(t) + CRLF;
    OverTrans(m, BodiesText(true, bodies), a, TERMINATION + rest, w);
    assert w.trace == m.trace + ChunkedEvents(bodies, t);
  }

  /* ---- whole messages ------------------------------------------------- */

  /**
   A message as the application gives it: header entries in multimap order, the flag
   `chunked()`, which is kept beside them, then body pieces, then a trailer.
   */
  datatype Message = Message(first: FirstLine, headers: Pairs, chunked: bool, bodies: seq<string>, trailer: Trailer)

  function Concat(bodies: seq<string>): string {
    if bodies == [] then "" else bodies[0] + Concat(bodies[1..])
  }

  lemma {:induction false} ConcatMore(bodies: seq<string>, s: string)
    ensures Concat(bodies + [s]) == Concat(bodies) + s
    decreases |bodies|
  {
    if bodies == [] {
      assert [] + [s] == [s];
      assert Concat([s]) == s + Concat([s][1..]) == s;
    } else {
      assert (bodies + [s])[1..] == bodies[1..] + [s];
      ConcatMore(bodies[1..], s);
      assert bodies[0] + (Concat(bodies[1..]) + s) == bodies[0] + Concat(bodies[1..]) + s;
    }
  }

  /** The header lines of the message as they are read. */
  function Fields(r: Message): Pairs { AsRead(Grouped(r.headers)) }

  /**
   The header block is not empty, well formed and announces the body truthfully, as
   chunked if and only if the flag says so; only
   a request and a status without a body may say nothing about it, and then there is
   none.  A request that opens a tunnel has no body.  A trailer comes after some body,
   which may be empty.
   */
  predicate Sendable(r: Message) {
    && CleanLine(r.first) && r.headers != []
    && CleanPairs(Fields(r)) && Lawful(Fields(r), false) && r.chunked == SaysChunked(Fields(r))
    && Storable(r.bodies) && CleanTrailer(r.trailer) && (r.trailer.Some? ==> r.bodies != [])
    && (LineOf(r.first).verb.CONNECT? ==> !r.chunked && Concat(r.bodies) == "")
    && if r.chunked then !SaysLength(Fields(r))
       else if SaysLength(Fields(r)) then
         r.trailer.None? && Announced(Fields(r), U64_MAX) == |Concat(r.bodies)|
       else r.trailer.None? && MayBeSilent(r.first) && Concat(r.bodies) == ""
  }

  function Head(r: Message): string
    requires r.first.minor < 10
  {
    LineText(r.first) + (Lines(Grouped(r.headers)) + CRLF)
  }

  /** The octets that the encoder prints for a message (`PrintMessage`), whatever its header block says. */
  function TextOf(r: Message): string
    requires r.first.minor < 10
  {
    Head(r) + (if r.chunked then ChunkedText(r.bodies, r.trailer) else BodiesText(false, r.bodies))
  }

  function Wire(r: Message): string
    requires Sendable(r)
  {
    TextOf(r)
  }

  function HeadMatcher(r: Message): Matcher
    requires Sendable(r)
  {
    BlockMatcher(LineEnd(r.first), Fields(r)).m
  }

  function HeadEvents(r: Message): seq<Event>
    requires Sendable(r)
  {
    var line := LineOf(r.first);
    [MessageBegin, LineData(r.first)] + LineEvents(Fields(r))
    + [HeadersComplete(line, Persists(r.first, Fields(r)))]
  }

  function SizedEvents(body: string): seq<Event> {
    (if body == "" then [] else [Data(Mark.Body, body)]) + [MessageComplete]
  }

  /** The callbacks that a message must cause. */
  function WireEvents(r: Message): seq<Event>
    requires Sendable(r)
  {
    HeadEvents(r) + (if r.chunked then ChunkedEvents(r.bodies, r.trailer) else SizedEvents(Concat(r.bodies)))
  }

  lemma {:induction false} PlainBodies(bodies: seq<string>)
    ensures BodiesText(false, bodies) == Concat(bodies)
    decreases |bodies|
  {
    if bodies != [] { PlainBodies(bodies[1..]); }
  }

  lemma {:induction false} AnnouncedSeen(ps: Pairs, a: nat, b: nat)
    requires CleanPairs(ps) && Lawful(ps, false) && SaysLength(ps)
    ensures Announced(ps, a) == Announced(ps, b) <= U64_MAX - 16
    decreases |ps|
  {
    if LowerName(ps[0].0) == CONTENT_LENGTH { AnnouncedOnce(ps[1..], Decimal(ps[0].1)); }
    else { AnnouncedSeen(ps[1..], a, b); }
  }

  /** The head, up to the point where the body starts. */
  lemma HeadOver(m: Machine, r: Message) returns (w: Machine)
    requires m.core == Init(Both, true) && Sendable(r)
    ensures Over(m, Head(r), w)
    ensures
      var c := Upgraded(AfterLine(r.first).(m := HeadMatcher(r)));
      if Bodied(c.m) then Is(w, c.(state := BodyStart(c)), m.trace + HeadEvents(r))
      else Is(w, Init(Both, true), m.trace + HeadEvents(r) + [MessageComplete])
    ensures w.hdr == 0
    ensures HeadMatcher(r).flags.chunked == r.chunked
    ensures !r.chunked ==>
      if Bodied(HeadMatcher(r)) then HeadMatcher(r).contentLength == |Concat(r.bodies)| > 0
      else Concat(r.bodies) == ""
    ensures r.chunked ==> !HeadMatcher(r).flags.contentLength
  {
    hide Over, Transition, Step, LineText, Lines, CleanLine, MethodString, Emit, BlockMatcher, Lawful, SaysChunked,
      Announced, SaysLength, CleanKey, CleanValue, ShouldKeepAlive, Persists, LineEvents, Concat, AsRead;
    LineIsPlain(r.first);
    var a := FirstLineOver(m, r.first);
    var ps, printed := Fields(r), Grouped(r.headers);
    BlockFraming(a.core.m, ps);
    KeepAliveMeans(r.first, ps);
    if SaysLength(ps) { AnnouncedSeen(ps, U64_MAX, a.core.m.contentLength); }
    else { NothingAnnounced(ps, a.core.m.contentLength); }
    var b := BlockOver(a, printed);
    var c := Settle(b);
    w := HeadBlankOver(c);
    assert CRLF[0] == CR;
    OverSettled(b, CRLF, w);
    OverTrans(a, Lines(printed), b, CRLF, w);
    OverTrans(m, LineText(r.first), a, Lines(printed) + CRLF, w);
    HeadTrace(m.trace, r);
  }

  lemma HeadTrace(tr: seq<Event>, r: Message)
    requires Sendable(r)
    ensures
      var e := HeadersComplete(LineOf(r.first), Persists(r.first, Fields(r)));
      var t := tr + [MessageBegin, LineData(r.first)] + LineEvents(Fields(r));
      t + [e] == tr + HeadEvents(r) && t + [e, MessageComplete] == tr + HeadEvents(r) + [MessageComplete]
  {
    hide Persists, LineEvents, Fields, Sendable;
  }

  lemma SendableHead(r: Message)
    requires Sendable(r)
    ensures r.first.minor < 10 && CleanLine(r.first) && CleanPairs(Fields(r)) && Lawful(Fields(r), false)
  {
  }

  lemma SendableEnd(r: Message)
    requires Sendable(r)
    ensures Storable(r.bodies) && CleanTrailer(r.trailer)
  {
  }

  lemma ChunkedMessageOver(m: Machine, r: Message) returns (w: Machine)
    requires m.core == Init(Both, true) && Sendable(r) && r.chunked
    ensures r.first.minor < 10 && Over(m, Head(r) + ChunkedText(r.bodies, r.trailer), w)
    ensures Is(w, Init(Both, true), m.trace + HeadEvents(r) + ChunkedEvents(r.bodies, r.trailer)) && w.hdr == 0
  {
    hide Sendable, Over, Transition, Step, Head, HeadEvents, HeadMatcher, Emit, CleanTrailer, Storable, Lawful,
      CleanPairs, Concat, ChunkedEvents, ChunkedText, BodiesText, Grouped, SaysLength, Announced, CleanLine, LineOf;
    SendableHead(r);
    SendableEnd(r);
    var a := HeadOver(m, r);
    w := ChunkedOver(a, r.bodies, r.trailer);
    OverTrans(m, Head(r), a, ChunkedText(r.bodies, r.trailer), w);
  }

  lemma SizedMessageOver(m: Machine, r: Message) returns (w: Machine)
    requires m.core == Init(Both, true) && Sendable(r) && !r.chunked
    ensures r.first.minor < 10 && Over(m, Head(r) + Concat(r.bodies), w)
    ensures Is(w, Init(Both, true), m.trace + HeadEvents(r) + SizedEvents(Concat(r.bodies))) && w.hdr == 0
  {
    hide Sendable, Over, Transition, Step, Head, HeadEvents, HeadMatcher, Emit, CleanTrailer, Storable, Lawful,
      CleanPairs, Concat, Grouped, SaysLength, Announced, CleanLine, LineOf;
    SendableHead(r);
    var body := Concat(r.bodies);
    var a := HeadOver(m, r);
    if body == "" {
      w := a;
      OverNothing(a);
      assert [] + [MessageComplete] == SizedEvents(body);
    } else {
      w := SizedBodyOver(a, body);
      EmitAfterHead(m.trace, r, body);
      assert m.trace + HeadEvents(r) + [Data(Mark.Body, body)] + [MessageComplete]
        == m.trace + HeadEvents(r) + SizedEvents(body);
    }
    OverTrans(m, Head(r), a, body, w);
  }

  /**
   The round trip of a whole message, however its body was cut into pieces and
   whichever framing it uses: the parser reports its first line, each header
   field once, the body, the trailer, and completes the message exactly once,
   ending where it started.
   */
  lemma MessageOver(m: Machine, r: Message) returns (w: Machine)
    requires m.core == Init(Both, true) && Sendable(r)
    ensures Over(m, Wire(r), w) && Is(w, Init(Both, true), m.trace + WireEvents(r)) && w.hdr == 0
  {
    hide Over, Transition, Step, Head, HeadEvents, Sendable, Concat, ChunkedEvents, SizedEvents, ChunkedText,
      BodiesText, Grouped, CleanPairs, CleanLine;
    SendableHead(r);
    if r.chunked {
      w := ChunkedMessageOver(m, r);
      assert m.trace + HeadEvents(r) + ChunkedEvents(r.bodies, r.trailer) == m.trace + WireEvents(r);
    } else {
      w := SizedMessageOver(m, r);
      PlainBodies(r.bodies);
      assert m.trace + HeadEvents(r) + SizedEvents(Concat(r.bodies)) == m.trace + WireEvents(r);
    }
  }

  lemma EmitAfterHead(tr: seq<Event>, r: Message, body: string)
    requires Sendable(r)
    ensures Emit(tr + HeadEvents(r), Data(Mark.Body, body)) == tr + HeadEvents(r) + [Data(Mark.Body, body)]
  {
    hide Persists, LineEvents, HeadMatcher;
  }

  /* ---- printing -------------------------------------------------------- */

  /** A header map whose printed names are clean has no entry without a name. */
  lemma KeysAreNamed(h: Pairs)
    requires CleanPairs(AsRead(Grouped(h)))
    ensures forall i :: 0 <= i < |h| ==> h[i].0 != ""
  {
    hide Grouped, Changes, AsRead, CleanValue;
    forall i | 0 <= i < |h| ensures h[i].0 != "" {
      EntriesInOrder(h, i);
      var at := Changes(h[..i + 1]);
      ReadAt(Grouped(h), at);
      assert CleanKey(AsRead(Grouped(h))[at].0);
    }
  }

  /** What the serialiser and the encoder insist on. */
  predicate Printable(r: Message) {
    && r.first.minor < 10 && r.headers != [] && (forall i :: 0 <= i < |r.headers| ==> r.headers[i].0 != "")
    && (r.trailer.Some? ==> r.chunked && r.bodies != [])
  }

  lemma SendableIsPrintable(r: Message)
    requires Sendable(r)
    ensures Printable(r) && Wire(r) == TextOf(r)
  {
    hide Grouped, CleanPairs, Lawful, Announced, Concat, CleanTrailer, SaysChunked, SaysLength, Storable;
    KeysAreNamed(r.headers);
    LineIsPlain(r.first);
  }

  /** The sender of a message: head, bodies piece by piece, trailer, end. */
  method PrintMessage(e: Encoder, r: Message) returns (msg: string)
    requires Printable(r) && e.state.ZERO?
    modifies e
    ensures e.state.ZERO? && msg == TextOf(r)
  {
    hide BodyText, Grouped, LineText, Lines;
    var chunked := r.chunked;
    var head := PrintHead(r.first, r.headers);
    msg := e.EncodeHeader(head, chunked);
    ghost var bodies := BodiesText(chunked, r.bodies);
    var i := 0;
    assert r.bodies[0..] == r.bodies;
    while i < |r.bodies|
      invariant i <= |r.bodies| && e.chunked == chunked && e.state == (if i == 0 then HEADER else BODY)
      invariant msg + BodiesText(chunked, r.bodies[i..]) == head + bodies
    {
      var part := e.EncodeBody(r.bodies[i]);
      assert r.bodies[i..][1..] == r.bodies[i + 1..];
      assert msg + (part + BodiesText(chunked, r.bodies[i + 1..]))
        == msg + part + BodiesText(chunked, r.bodies[i + 1..]);
      msg := msg + part;
      i := i + 1;
    }
    assert msg + "" == msg;
    if r.trailer.Some? {
      var part := e.EncodeTrailer(r.trailer.value.0, r.trailer.value.1);
      msg := msg + part;
    }
    var end := e.EncodeEom();
    msg := msg + end;
    EndPrinted(head, bodies, r.trailer);
  }

  /** The end of a chunked message, put together in two ways. */
  lemma EndPrinted(head: string, bodies: string, t: Trailer)
    ensures head + bodies + (TERMINATION + CRLF) == head + (bodies + (TERMINATION + "" + CRLF))
    ensures t.Some? ==>
      head + bodies + TrailerText(t.value.0, t.value.1) + CRLF
        == head + (bodies + (TERMINATION + TrailerLine(t) + CRLF))
    ensures head + bodies + "" == head + bodies
  {
    assert TERMINATION + "" + CRLF == TERMINATION + CRLF;
    if t.Some? {
      var (k, v) := t.value;
      assert TERMINATION + k + ": " + v + CRLF == TERMINATION + (k + ": " + v + CRLF);
    }
  }

  /* ---- pipelines ------------------------------------------------------ */

  predicate AllSendable(rs: seq<Message>) { forall i :: 0 <= i < |rs| ==> Sendable(rs[i]) }

  function Stream(rs: seq<Message>): string
    requires AllSendable(rs)
  {
    if rs == [] then "" else Wire(rs[0]) + Stream(rs[1..])
  }

  function StreamEvents(rs: seq<Message>): seq<Event>
    requires AllSendable(rs)
  {
    if rs == [] then [] else WireEvents(rs[0]) + StreamEvents(rs[1..])
  }

  /** A pipelined stream decodes to its messages, one by one and in order (section 6.3.2 of RFC 7230). */
  lemma {:induction false} StreamOver(m: Machine, rs: seq<Message>) returns (w: Machine)
    requires m.core == Init(Both, true) && AllSendable(rs)
    ensures Over(m, Stream(rs), w) && Is(w, Init(Both, true), m.trace + StreamEvents(rs))
    decreases |rs|
  {
    hide Over, Transition, Step, Wire, WireEvents, Sendable;
    if rs == [] {
      w := m;
      OverNothing(m);
      assert m.trace + [] == m.trace;
    } else {
      var a := MessageOver(m, rs[0]);
      w := StreamOver(a, rs[1..]);
      OverTrans(m, Wire(rs[0]), a, Stream(rs[1..]), w);
      assert m.trace + WireEvents(rs[0]) + StreamEvents(rs[1..])
        == m.trace + (WireEvents(rs[0]) + StreamEvents(rs[1..]));
    }
  }
}
