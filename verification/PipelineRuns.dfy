/**
 What every run of a pipelined connection guarantees, whatever the order in which
 the application fills its responses and the writes complete.
 */
module PipelineRuns {
  import opened Ascii
  import opened ParserTypes
  import opened HeaderLines
  import opened HttpEncoder
  import opened RoundTrip
  import opened ChunkedCoding
  import opened FirstLines
  import opened Persistence
  import opened Fragmentation
  import opened HttpParser
  import C = HttpDecoder

  import opened HeaderSizes
  import D = Delivery
  import P = Pipeline
  import S = Streams

  lemma FreshInv()
    ensures P.Inv(P.Fresh()) && P.Settled(P.Fresh())
  {
    assert P.Upto(0) == [];
    assert [] + [] + [] + [] == P.Upto(0);
    assert "" + "" + "" == "";
  }

  /** A run from the start. */
  predicate Legal(run: seq<P.Step>) {
    FreshInv();
    P.Legal(P.Fresh(), run)
  }

  function Outcome(run: seq<P.Step>): P.Conn
    requires Legal(run)
  {
    FreshInv();
    P.Outcome(P.Fresh(), run)
  }

  /* ---- writing -------------------------------------------------------- */

  lemma {:induction false} AllTextPrefix(ss: seq<P.Sent>, k: nat)
    requires P.AllHeaded(ss) && k <= |ss|
    ensures P.AllText(ss[..k]) <= P.AllText(ss)
    decreases |ss|
  {
    hide P.FinishedText;
    if k < |ss| {
      AllTextPrefix(ss[..|ss| - 1], k);
      assert ss[..|ss| - 1][..k] == ss[..k];
    } else {
      assert ss[..k] == ss;
    }
  }

  lemma PrefixOfBoth(a: string, b: string, s: string)
    requires a <= s && b <= s && |a| <= |b|
    ensures a <= b
  {
  }

  /**
   At most one write is outstanding and its buffer is left alone; until the
   connector stops, what was written, what is being written and what waits are
   together exactly what was serialised.
   */
  lemma Conservation(run: seq<P.Step>)
    requires Legal(run)
    ensures
      var c := Outcome(run);
      var l := c.link;
      && |l.flights| == (if l.writing then 1 else 0)
      && (l.writing ==> l.flights[0].text == l.out)
      && l.written <= c.log.emitted
      && (!l.stopped ==> l.written + (if l.writing then l.out else "") + c.serialization == c.log.emitted)
  {
    FreshInv();
    hide P.AllText, P.QueueInv, P.SentInv;
    var l := Outcome(run).link;
    assert !l.writing ==> l.written + "" == l.written;
  }

  /**
   Each feedback is given at most once, the successes in request order; success
   means that every octet of that response, and of all before it, was written.
   */
  lemma Acknowledged(run: seq<P.Step>, k: nat)
    requires Legal(run) && k < |Outcome(run).link.succeeded|
    ensures
      var c := Outcome(run);
      var l := c.link;
      && l.succeeded[k] == k && k !in l.failed
      && P.AllHeaded(c.log.finished) && k < |c.log.finished| && P.AllText(c.log.finished[..k + 1]) <= l.written
  {
    LinkHolds(run);
    hide P.AllText, P.LinkInv, P.AllHeaded, P.Faithful, P.SentText, Outcome, Legal;
    var c := Outcome(run);
    Acks(c, k);
    Conservation(run);
    InOrder(run);
    AllTextPrefix(c.log.finished, k + 1);
    PrefixOfBoth(P.AllText(c.log.finished[..k + 1]), c.link.written, c.log.emitted);
  }

  lemma LinkHolds(run: seq<P.Step>)
    requires Legal(run)
    ensures P.LinkInv(Outcome(run))
  {
    FreshInv();
    hide P.LinkInv, P.SentInv, P.QueueInv;
  }

  lemma Acks(c: P.Conn, k: nat)
    requires P.LinkInv(c) && k < |c.link.succeeded|
    ensures c.link.succeeded[k] == k && k !in c.link.failed
    ensures k < |c.log.finished| && |P.AllText(c.log.finished[..k + 1])| <= |c.link.written|
  {
    hide P.AllText, P.AllHeaded;
    var l, ss := c.link, c.log.finished;
    var all := l.succeeded + l.failed + P.InFlight(l).feedbacks + c.pending;
    assert all[k] == l.succeeded[k];
    forall j | 0 <= j < |l.failed| ensures l.failed[j] != k {
      assert all[|l.succeeded| + j] == l.failed[j];
    }
    HeadedPart(ss, |l.succeeded|);
    AllTextPrefix(ss[..|l.succeeded|], k + 1);
    assert ss[..|l.succeeded|][..k + 1] == ss[..k + 1];
  }

  lemma HeadedPart(ss: seq<P.Sent>, k: nat)
    requires P.AllHeaded(ss) && k <= |ss|
    ensures P.AllHeaded(ss[..k])
  {
  }

  /** No feedback is given twice, on either side. */
  lemma OneSide(run: seq<P.Step>)
    requires Legal(run)
    ensures
      var l := Outcome(run).link;
      var given := l.succeeded + l.failed;
      forall i :: 0 <= i < |given| ==> given[i] == i
  {
    FreshInv();
    hide P.AllText, P.QueueInv, P.SentInv;
    var c := Outcome(run);
    var l := c.link;
    var given := l.succeeded + l.failed;
    var all := given + P.InFlight(l).feedbacks + c.pending;
    forall i | 0 <= i < |given| ensures given[i] == i {
      assert all[i] == given[i];
    }
  }

  /**
   No write is ever forgotten: a connector that is neither writing nor stopped has
   written everything and acknowledged every finished response.
   */
  lemma AllWritten(run: seq<P.Step>)
    requires Legal(run) && !Outcome(run).link.stopped && !Outcome(run).link.writing
    ensures
      var c := Outcome(run);
      && c.link.written == c.log.emitted && c.serialization == ""
      && c.link.succeeded == P.Upto(|c.log.finished|)
  {
    FreshInv();
    hide P.AllText, P.QueueInv, P.SentInv;
    var l := Outcome(run).link;
    assert l.written + "" + "" == l.written;
    assert l.succeeded + [] + [] + [] == l.succeeded;
  }

  /**
   When the connector is gone, every response that was finished and not acknowledged
   fails, in request order: each finished response has been given exactly one result.
   A handler that the user closed gives none.
   */
  lemma DestroyedFails(run: seq<P.Step>)
    requires Legal(run) && !Outcome(run).link.writing
    ensures
      var c := Outcome(run);
      var d := P.Nulled(c);
      && d.log.finished == c.log.finished && d.link.succeeded == c.link.succeeded && c.link.failed <= d.link.failed
      && if c.log.dropped then d.link.failed == c.link.failed
         else d.link.succeeded + d.link.failed == P.Upto(|c.log.finished|)
  {
    FreshInv();
    hide P.AllText, P.QueueInv, P.SentInv, P.Settled, P.Outcome;
    var c := Outcome(run);
    var l := c.link;
    assert l.succeeded + l.failed + [] + c.pending == l.succeeded + (l.failed + c.pending);
  }

  /* ---- order ---------------------------------------------------------- */

  /**
   Nothing is ever reordered, lost or invented: what has been serialised is the
   finished responses in request order, each exactly as it was said, and then the
   part of the front response that was said so far; nothing sayable is held back.
   */
  lemma InOrder(run: seq<P.Step>)
    requires Legal(run)
    ensures
      var c := Outcome(run);
      var n := |c.log.finished|;
      && P.AllHeaded(c.log.finished) && n <= |c.log.said|
      && c.log.emitted == P.AllText(c.log.finished) + P.SentText(c.log.current)
      && (forall i :: 0 <= i < n ==> P.Faithful(c.log.finished[i], c.log.said[i]))
      && (!c.log.dropped && n < |c.log.said| ==>
            var a := c.log.said[n];
            && !a.ended && c.log.current.head == a.head
            && P.Joined(c.log.current.pieces) == a.body && c.log.current.trailers == a.trailers)
  {
    FreshInv();
    var c := Outcome(run);
    var n := |c.log.finished|;
    hide P.AllText, P.SentText, P.LinkInv, P.Faithful, P.AllHeaded;
    if !c.log.dropped && n < |c.log.said| {
      P.FrontIsDry(c.log.current, c.queue[0], c.log.said[n]);
    }
  }

  /* ---- the assertions of the encoder ---------------------------------- */

  function HearAll(r: P.Local, calls: seq<P.Call>): P.Local
    decreases |calls|
  {
    if calls == [] then r else HearAll(P.Hear(r, calls[0]), calls[1..])
  }

  function NoteAll(a: P.Said, calls: seq<P.Call>): P.Said
    decreases |calls|
  {
    if calls == [] then a else NoteAll(P.Note(a, calls[0]), calls[1..])
  }

  /**
   For a response that waits behind others only the sum of the calls matters, not
   their order: polling it when its turn comes meets the assertions if and only if
   what has been said to it by then makes sense.
   */
  lemma QueuedCallsAreSums(c: P.Conn, i: nat, calls: seq<P.Call>)
    requires P.Inv(c) && !c.log.dropped && 0 < i < |c.queue|
    ensures
      var n := |c.log.finished| + i;
      n < |c.log.said| && (P.Passes(ZERO, HearAll(c.queue[i], calls)) <==> P.Sensible(NoteAll(c.log.said[n], calls)))
  {
    hide P.LinkInv, P.SentInv, P.Accounts, HearAll, NoteAll, P.Passes, P.Agrees, P.Sensible;
    var a, r := c.log.said[|c.log.finished| + i], c.queue[i];
    Waiting(r, a);
    CallsAgree(r, a, calls);
    P.PassesMeans(ZERO, HearAll(r, calls));
    SenseIsAgreement(HearAll(r, calls), NoteAll(a, calls));
  }

  /** Nothing of a response has been sent: it holds all that was said. */
  predicate Holds(r: P.Local, a: P.Said) {
    r.head == a.head && r.content == a.body && r.trailers == a.trailers && r.ended == a.ended
  }

  lemma Waiting(r: P.Local, a: P.Said)
    requires P.Accounts(P.NOTHING, r, a)
    ensures Holds(r, a)
  {
    assert P.Joined([]) + r.content == r.content && [] + r.trailers == r.trailers;
  }

  lemma {:induction false} CallsAgree(r: P.Local, a: P.Said, calls: seq<P.Call>)
    requires Holds(r, a)
    ensures Holds(HearAll(r, calls), NoteAll(a, calls))
    decreases |calls|
  {
    if calls != [] { CallsAgree(P.Hear(r, calls[0]), P.Note(a, calls[0]), calls[1..]); }
  }

  lemma SenseIsAgreement(r: P.Local, a: P.Said)
    requires Holds(r, a)
    ensures P.Agrees(ZERO, r) <==> P.Sensible(a)
  {
  }

  /** The responses whose turn would come are complete, up to one that has not ended. */
  predicate Ready(said: seq<P.Said>) {
    said == [] || (P.Sensible(said[0]) && (said[0].ended ==> Ready(said[1..])))
  }

  lemma {:induction false} WaitingPass(q: seq<P.Local>, said: seq<P.Said>)
    requires |q| == |said| && forall i :: 0 <= i < |q| ==> P.Accounts(P.NOTHING, q[i], said[i])
    ensures P.AllPass(ZERO, q) <==> Ready(said)
    decreases |q|
  {
    hide P.Passes, P.Agrees, P.Sensible, P.Accounts;
    if q != [] {
      Waiting(q[0], said[0]);
      P.PassesMeans(ZERO, q[0]);
      SenseIsAgreement(q[0], said[0]);
      WaitingPass(q[1..], said[1..]);
    }
  }

  /** The queue after a call on the response that is being sent. */
  lemma FrontHears(c: P.Conn, call: P.Call)
    requires P.Inv(c) && P.Settled(c) && !c.log.dropped && c.queue != [] && |c.log.finished| < |c.log.said|
    ensures
      var d := P.Listen(c, |c.log.finished|, call);
      && d.enc == c.enc && d.queue != [] && d.queue[1..] == c.queue[1..] && (d.queue[0].ended <==> call.End?)
  {
    hide P.Inv, P.Idle, P.Note;
  }

  lemma FrontPass(c: P.Conn, call: P.Call)
    requires P.Inv(c) && P.Settled(c) && !c.log.dropped && c.queue != []
    ensures
      var n := |c.log.finished|;
      && n + |c.queue| == |c.log.said|
      && (P.Polls(P.Listen(c, n, call)) <==>
            (P.MaySay(c.log.said[n], call) || call == P.Body("")) && (call.End? ==> Ready(c.log.said[n + 1..])))
  {
    hide P.Inv, P.Settled, P.Polls, P.Passes, P.Accounts, P.MaySay, P.Listen, Ready;
    var n := |c.log.finished|;
    QueueKnows(c);
    FrontHears(c, call);
    P.AssertionsAreOrder(c, call);
    P.PollsMeans(P.Listen(c, n, call));
    WaitingPass(c.queue[1..], c.log.said[n + 1..]);
  }

  lemma QueueKnows(c: P.Conn)
    requires P.Inv(c) && !c.log.dropped && c.queue != []
    ensures
      var n := |c.log.finished|;
      n + |c.queue| == |c.log.said|
      && forall i :: 0 <= i < |c.queue[1..]| ==> P.Accounts(P.NOTHING, c.queue[1..][i], c.log.said[n + 1..][i])
  {
    hide P.LinkInv, P.SentInv;
  }

  /**
   Which calls meet every assertion, in terms of what has been said: on a response that
   waits, any; on the one that is being sent, those that come in order, and an empty
   body; and the call that ends it only if what has been said to those behind it, up to
   the first that has not ended, makes up responses.
   */
  lemma AllowedMeans(c: P.Conn, i: nat, call: P.Call)
    requires P.Inv(c) && P.Settled(c) && !c.log.dropped && i < |c.queue|
    ensures
      var n := |c.log.finished|;
      && n + |c.queue| == |c.log.said|
      && (P.Allowed(c, P.Say(n + i, call)) <==>
            i > 0
            || ((P.MaySay(c.log.said[n], call) || call == P.Body("")) && (call.End? ==> Ready(c.log.said[n + 1..]))))
  {
    hide P.Inv, P.Polls, P.Settled, P.MaySay, P.Listen, Ready;
    FrontPass(c, call);
    if i > 0 { WaitingMay(c, |c.log.finished| + i, call); }
  }

  lemma WaitingMay(c: P.Conn, id: nat, call: P.Call)
    requires P.Settled(c) && |c.log.finished| < id < |c.log.said|
    ensures P.Polls(P.Listen(c, id, call))
  {
    hide P.PollOnce, P.Idle, P.Hear, P.Note;
  }

  /** A run that fails an assertion: a head, and then a trailer at once. */
  lemma TrailerAfterHead(p: P.Preamble, k: string, v: string)
    ensures
      var run := [P.Request, P.Say(0, P.Headers(p))];
      Legal(run) && Outcome(run).queue != [] && |Outcome(run).log.said| == 1
      && !P.Passes(Outcome(run).enc, P.Listen(Outcome(run), 0, P.Trailer(k, v)).queue[0])
  {
    FreshInv();
    hide P.Inv, P.Passes, P.Notify, P.Agrees, P.Settled, P.PollOnce, P.Polls;
    var run := [P.Request, P.Say(0, P.Headers(p))];
    var d := P.Opened(P.Fresh());
    assert P.Advance(P.Fresh(), run[0]) == d;
    assert d.queue == [P.Local(0, None, "", [], false)] && d.log.said == [P.Said(None, "", [], false)];
    assert run[1..] == [run[1]] && [run[1]][1..] == [];
    AllowedMeans(d, 0, P.Headers(p));
    assert P.Legal(P.Advance(d, run[1]), []);
    assert P.Legal(d, [run[1]]);
    var e := P.Advance(d, run[1]);
    assert P.Outcome(d, [run[1]]) == e by { assert P.Outcome(e, []) == e; }
    OneHead(d, p);
    P.AssertionsAreOrder(e, P.Trailer(k, v));
  }

  lemma OneHead(d: P.Conn, p: P.Preamble)
    requires P.Inv(d) && P.Settled(d) && P.Allowed(d, P.Say(0, P.Headers(p)))
    requires d.queue == [P.Local(0, None, "", [], false)] && d.log.said == [P.Said(None, "", [], false)]
    requires d.log.finished == [] && !d.log.dropped
    ensures
      var e := P.Advance(d, P.Say(0, P.Headers(p)));
      && e.queue == d.queue && e.log.said == [P.Said(Some(p), "", [], false)] && e.log.finished == [] && !e.log.dropped
  {
    hide P.Inv, P.Notify;
    var c := P.Listen(d, 0, P.Headers(p));
    P.ListenKeeps(d, 0, P.Headers(p));
    P.ListenIdles(d, 0, P.Headers(p));
    P.NotifyPolls(c);
    P.NotifyPolls(P.PollOnce(c));
  }

  /* ---- meaning -------------------------------------------------------- */

  /** What was said is this response. */
  predicate Says(a: P.Said, r: Message)
    requires Sendable(r)
  {
    && a.head == Some(P.Preamble(Head(r), r.chunked)) && a.trailers == TrailerPairs(r.trailer)
    && a.body == Concat(r.bodies) && |a.body| <= MAX_STRING
  }

  predicate AllSay(said: seq<P.Said>, rs: seq<Message>)
    requires AllSendable(rs)
  {
    |said| == |rs| && forall i :: 0 <= i < |rs| ==> Says(said[i], rs[i])
  }

  /** The response as it went out, its body cut where the schedule happened to cut it. */
  function Resent(r: Message, s: P.Sent): Message { r.(bodies := s.pieces) }

  function AllResent(rs: seq<Message>, ss: seq<P.Sent>): seq<Message>
    requires |rs| == |ss|
  {
    seq(|rs|, i requires 0 <= i < |rs| => Resent(rs[i], ss[i]))
  }

  lemma {:induction false} BodiesMore(chunked: bool, bodies: seq<string>, s: string)
    ensures BodiesText(chunked, bodies + [s]) == BodiesText(chunked, bodies) + BodyText(chunked, s)
    decreases |bodies|
  {
    hide BodyText;
    var last := BodyText(chunked, s);
    if bodies == [] {
      assert [] + [s] == [s];
      assert BodiesText(chunked, [s]) == last + BodiesText(chunked, [s][1..]) == last;
    } else {
      assert (bodies + [s])[1..] == bodies[1..] + [s];
      BodiesMore(chunked, bodies[1..], s);
      var b, rest := BodyText(chunked, bodies[0]), BodiesText(chunked, bodies[1..]);
      assert b + (rest + last) == b + rest + last;
    }
  }

  /** The two ways to put pieces together agree. */
  lemma {:induction false} PiecesAgree(chunked: bool, pieces: seq<string>)
    ensures P.Joined(pieces) == Concat(pieces)
    ensures P.PiecesText(chunked, pieces) == BodiesText(chunked, pieces)
    decreases |pieces|
  {
    hide BodyText;
    if pieces != [] {
      var n := |pieces| - 1;
      PiecesAgree(chunked, pieces[..n]);
      ConcatMore(pieces[..n], pieces[n]);
      BodiesMore(chunked, pieces[..n], pieces[n]);
      assert pieces[..n] + [pieces[n]] == pieces;
    }
  }

  lemma {:induction false} PiecesFit(pieces: seq<string>)
    requires |Concat(pieces)| <= MAX_STRING
    ensures Storable(pieces)
    decreases |pieces|
  {
    if pieces != [] {
      PiecesFit(pieces[1..]);
      forall i | 0 <= i < |pieces| ensures |pieces[i]| <= MAX_STRING {
        assert i > 0 ==> pieces[i] == pieces[1..][i - 1];
      }
    }
  }

  lemma ResentSendable(r: Message, s: P.Sent, a: P.Said)
    requires Sendable(r) && Says(a, r) && P.Faithful(s, a)
    ensures Sendable(Resent(r, s)) && Concat(s.pieces) == Concat(r.bodies)
    ensures Resent(r, s).chunked == r.chunked && Head(Resent(r, s)) == Head(r)
    ensures S.Recut(Resent(r, s), r) && Fits(Resent(r, s)) == Fits(r)
  {
    hide Lawful, SaysChunked, SaysLength, Announced, CleanTrailer, CleanPairs, LineText, Lines, P.PiecesText,
      BodiesText, Persists, BlockMatcher, Storable;
    PiecesAgree(r.chunked, s.pieces);
    PiecesFit(s.pieces);
  }

  lemma TextWithTrailer(s: P.Sent, t: Trailer)
    requires s.head.Some? && s.head.value.chunked && t.Some? && s.trailers == [t.value]
    ensures P.FinishedText(s) == s.head.value.text + ChunkedText(s.pieces, t)
  {
    PiecesAgree(true, s.pieces);
    hide P.PiecesText, BodiesText;
    var (k, v) := t.value;
    var a, body, line := s.head.value.text, BodiesText(true, s.pieces), TrailerText(k, v);
    assert s.trailers[..0] == [] && "" + line == line == TrailersText(s.trailers);
    assert line == TERMINATION + TrailerLine(t) by {
      assert TERMINATION + k + ": " + v + CRLF == TERMINATION + (k + ": " + v + CRLF);
    }
    hide TrailerText, TrailerLine;
    assert P.EncoderAt(s) == TRAILER;
    assert a + body + line + CRLF == a + (body + (line + CRLF));
  }

  lemma TextWithoutTrailer(s: P.Sent)
    requires s.head.Some? && s.trailers == []
    ensures
      var p := s.head.value;
      P.FinishedText(s) == p.text + (if p.chunked then ChunkedText(s.pieces, None) else BodiesText(false, s.pieces))
  {
    var p := s.head.value;
    PiecesAgree(p.chunked, s.pieces);
    hide P.PiecesText, BodiesText;
    var a, body := p.text, BodiesText(p.chunked, s.pieces);
    assert a + body + "" == a + body && a + body + "" + "" == a + body;
    assert a + body + "" + (TERMINATION + CRLF) == a + (body + (TERMINATION + "" + CRLF));
  }

  /** The text that was sent is the text of the response. */
  lemma SentIsWire(r: Message, s: P.Sent, a: P.Said)
    requires Sendable(r) && Says(a, r) && P.Faithful(s, a) && Sendable(Resent(r, s))
    requires Resent(r, s).chunked == r.chunked && Head(Resent(r, s)) == Head(r)
    ensures P.FinishedText(s) == Wire(Resent(r, s))
  {
    ChunkedIfTrailer(r);
    hide Sendable, Head, Concat, P.Joined, P.FinishedText, ChunkedText, BodiesText;
    if r.trailer.None? {
      TextWithoutTrailer(s);
    } else {
      TextWithTrailer(s, r.trailer);
    }
  }

  lemma ChunkedIfTrailer(r: Message)
    requires Sendable(r)
    ensures CleanPairs(Fields(r)) && r.first.minor < 10 && (r.trailer.Some? ==> r.chunked)
  {
  }

  lemma {:induction false} StreamMore(rs: seq<Message>, r: Message)
    requires AllSendable(rs) && Sendable(r)
    ensures AllSendable(rs + [r]) && Stream(rs + [r]) == Stream(rs) + Wire(r)
    decreases |rs|
  {
    hide Sendable, Wire;
    if rs == [] {
      assert [] + [r] == [r];
      assert Stream([r]) == Wire(r) + Stream([r][1..]) == Wire(r);
    } else {
      assert (rs + [r])[1..] == rs[1..] + [r];
      StreamMore(rs[1..], r);
      assert Wire(rs[0]) + (Stream(rs[1..]) + Wire(r)) == Wire(rs[0]) + Stream(rs[1..]) + Wire(r);
    }
  }

  predicate AllFaithful(ss: seq<P.Sent>, said: seq<P.Said>) {
    |ss| == |said| && forall i :: 0 <= i < |ss| ==> P.Faithful(ss[i], said[i])
  }

  /** Everything that was sent is the stream of the responses as they went out. */
  lemma {:induction false} SentIsStream(rs: seq<Message>, ss: seq<P.Sent>, said: seq<P.Said>)
    requires AllSendable(rs) && AllSay(said, rs) && AllFaithful(ss, said)
    ensures P.AllHeaded(ss) && AllSendable(AllResent(rs, ss)) && P.AllText(ss) == Stream(AllResent(rs, ss))
    decreases |ss|
  {
    hide Sendable, Says, P.Faithful, P.FinishedText, Wire, Resent, Stream, Head, S.Recut, Fits, Concat;
    if ss == [] {
      assert AllResent(rs, ss) == [];
      NoStream();
    } else {
      var n := |ss| - 1;
      SentIsStream(rs[..n], ss[..n], said[..n]);
      ResentSendable(rs[n], ss[n], said[n]);
      SentIsWire(rs[n], ss[n], said[n]);
      StreamMore(AllResent(rs[..n], ss[..n]), Resent(rs[n], ss[n]));
      assert AllResent(rs, ss) == AllResent(rs[..n], ss[..n]) + [Resent(rs[n], ss[n])];
      FaithfulHead(ss[n], said[n]);
    }
  }

  lemma NoStream()
    ensures Stream([]) == "" && P.AllText([]) == ""
  {
  }

  lemma FaithfulHead(s: P.Sent, a: P.Said)
    requires P.Faithful(s, a)
    ensures s.head.Some?
  {
  }

  /** A connection whose responses have all been said in full, and all sent. */
  predicate Complete(c: P.Conn) { c.queue == [] && !c.log.dropped }

  lemma CompleteKnows(run: seq<P.Step>)
    requires Legal(run) && Complete(Outcome(run))
    ensures
      var c := Outcome(run);
      && AllFaithful(c.log.finished, c.log.said) && P.AllHeaded(c.log.finished)
      && c.log.emitted == P.AllText(c.log.finished)
  {
    FreshInv();
    hide P.AllText, P.LinkInv, P.Accounts, P.Faithful;
    P.NothingText();
  }

  /**
   Schedule independence (section 6.3.2 of RFC 7230): in whatever order the calls
   on the responses were interleaved with each other and with the writes, what was
   serialised is a stream of exactly those responses in request order, which a
   decoder tells its owner of as of the responses themselves, in the same reads or in others.
   */
  lemma ScheduleIsInvisible(run: seq<P.Step>, rs: seq<Message>)
    requires Legal(run) && Complete(Outcome(run))
    requires AllSendable(rs) && AllSay(Outcome(run).log.said, rs) && D.Moderate(rs) && S.Alike(rs, false)
    ensures
      var c := Outcome(run);
      && |rs| == |c.log.finished| && AllSendable(AllResent(rs, c.log.finished))
      && c.log.emitted == Stream(AllResent(rs, c.log.finished))
      && D.Moderate(AllResent(rs, c.log.finished)) && S.Alike(AllResent(rs, c.log.finished), false)
      && forall f, g :: S.AllTold(C.Unset, AllResent(rs, c.log.finished), f) == S.AllTold(C.Unset, rs, g)
  {
    hide Outcome, Legal, Complete, P.Faithful, Sendable, Says, Stream, P.AllText, S.AllTold, S.Recut, Fits;
    CompleteKnows(run);
    var c := Outcome(run);
    var ss, said := c.log.finished, c.log.said;
    SentIsStream(rs, ss, said);
    forall i | 0 <= i < |rs|
      ensures S.Recut(AllResent(rs, ss)[i], rs[i]) && Fits(AllResent(rs, ss)[i]) == Fits(rs[i])
      ensures AllResent(rs, ss)[i].first.Reply?
    {
      ResentSendable(rs[i], ss[i], said[i]);
    }
    forall f, g ensures S.AllTold(C.Unset, AllResent(rs, ss), f) == S.AllTold(C.Unset, rs, g) {
      S.RepliesTold(C.Unset, AllResent(rs, ss), rs, f, g);
    }
  }

  /** A response of announced length goes out octet for octet, whatever the schedule. */
  lemma PlainIsIdentical(run: seq<P.Step>, rs: seq<Message>, i: nat)
    requires Legal(run) && Complete(Outcome(run))
    requires AllSendable(rs) && AllSay(Outcome(run).log.said, rs) && i < |rs| && !rs[i].chunked
    ensures |rs| == |Outcome(run).log.finished| && Outcome(run).log.finished[i].head.Some?
    ensures P.FinishedText(Outcome(run).log.finished[i]) == Wire(rs[i])
  {
    hide Outcome, Legal, Complete, Sendable, P.Faithful, P.FinishedText, Head, Concat;
    CompleteKnows(run);
    var s, a := Outcome(run).log.finished[i], Outcome(run).log.said[i];
    FaithfulHead(s, a);
    assert Says(a, rs[i]);
    ResentSendable(rs[i], s, a);
    SentIsWire(rs[i], s, a);
    PlainBodies(s.pieces);
    PlainBodies(rs[i].bodies);
  }

  /**
   The whole way: the application fills its responses in any order, the connector
   writes everything, the network cuts it anywhere, and the decoder at the other
   end tells its owner of those responses in order, exactly as they are if and only if
   they are of one version.
   */
  method Deliver(ghost run: seq<P.Step>, ghost rs: seq<Message>, buffers: seq<string>) returns (notices: seq<C.Notice>)
    requires Legal(run) && Complete(Outcome(run))
    requires AllSendable(rs) && AllSay(Outcome(run).log.said, rs) && D.Moderate(rs) && S.Alike(rs, false)
    requires !Outcome(run).link.stopped && !Outcome(run).link.writing
    requires Flatten(buffers) == Outcome(run).link.written
    requires forall i :: 0 <= i < |buffers| ==> |buffers[i]| <= MAX_BUFFER
    ensures forall f :: notices == S.AllTold(C.Unset, rs, f)
    ensures notices == S.AllOwn(rs) <==> S.OneVersion(rs)
  {
    hide *;
    ScheduleIsInvisible(run, rs);
    AllWritten(run);
    notices := D.Arrive(AllResent(rs, Outcome(run).log.finished), false, buffers);
    ghost var frags := D.Buffers(Stream(rs));
    S.RepliesUncut(rs, frags);
    S.ToldIsOwn(rs, frags);
  }
}
