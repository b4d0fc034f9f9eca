/**
 Pipelining on one connection: the responses an application fills in any order,
 the handler that polls them in request order, and the connector that writes
 what the handler has serialised, one write at a time.
 */
module Pipeline {
  import opened ParserTypes
  import opened HeaderLines
  import opened HttpEncoder

  /* ---- the parts ------------------------------------------------------ */

  /** A response head, serialised. */
  datatype Preamble = Preamble(text: string, chunked: bool)

  /** `http::response`, as far as it is polled. */
  datatype Local = Local(id: nat, head: Option<Preamble>, content: string, trailers: Pairs, ended: bool)

  datatype Offer = Pending | HeadersReceived | BodyReceived | TrailerReceived | Ended

  /** `response::get_state` */
  function GetState(r: Local): Offer {
    if r.head.Some? then HeadersReceived
    else if r.content != "" then BodyReceived
    else if r.trailers != [] then TrailerReceived
    else if r.ended then Ended
    else Pending
  }

  /** An asynchronous write, with the feedbacks that it will fire. */
  datatype Flight = Flight(text: string, feedbacks: seq<nat>)

  /** `connector`: its flags, its buffer, and what has become of its writes. */
  datatype Link = Link(
    writing: bool, stopped: bool, out: string, flights: seq<Flight>,
    written: string, succeeded: seq<nat>, failed: seq<nat>)

  /** What the handler has sent of one response. */
  datatype Sent = Sent(head: Option<Preamble>, pieces: seq<string>, trailers: Pairs)

  /** What the application has said about one response. */
  datatype Said = Said(head: Option<Preamble>, body: string, trailers: Pairs, ended: bool)

  /** The history of a connection: nothing here influences what the code does. */
  datatype Log = Log(emitted: string, finished: seq<Sent>, current: Sent, said: seq<Said>, dropped: bool)

  /** `handler_http1` and its connector. */
  datatype Conn = Conn(
    queue: seq<Local>, enc: EncoderState, chunked: bool, serialization: string, pending: seq<nat>,
    link: Link, log: Log)

  const NOTHING := Sent(None, [], [])

  function Fresh(): Conn {
    Conn([], ZERO, false, "", [], Link(false, false, "", [], "", [], []), Log("", [], NOTHING, [], false))
  }

  /* ---- writing -------------------------------------------------------- */

  /** `connector::do_write` */
  function DoWrite(c: Conn): Conn {
    if c.link.writing || c.link.stopped then c
    else if c.serialization == "" then
      c.(pending := [], link := c.link.(out := "", succeeded := c.link.succeeded + c.pending))
    else
      c.(serialization := "", pending := [],
         link := c.link.(out := c.serialization, writing := true,
                         flights := c.link.flights + [Flight(c.serialization, c.pending)]))
  }

  function Add(c: Conn, text: string): Conn {
    c.(serialization := c.serialization + text, log := c.log.(emitted := c.log.emitted + text))
  }

  /** Text is appended to the serialisation and a write is requested. */
  function Append(c: Conn, text: string): Conn { DoWrite(Add(c, text)) }

  /** The completion handler of a write that went well. */
  function Completed(c: Conn): Conn
    requires c.link.flights != []
  {
    var f := c.link.flights[0];
    DoWrite(c.(link := c.link.(writing := false, flights := c.link.flights[1..],
                               written := c.link.written + f.text, succeeded := c.link.succeeded + f.feedbacks)))
  }

  /** The completion handler of a write that did not. */
  function Broken(c: Conn): Conn
    requires c.link.flights != []
  {
    var f := c.link.flights[0];
    c.(link := c.link.(writing := false, stopped := true, flights := c.link.flights[1..],
                       failed := c.link.failed + f.feedbacks))
  }

  /* ---- polling -------------------------------------------------------- */

  /** The assertions of the encoder, for each thing that can be polled. */
  predicate Accepts(e: EncoderState, o: Offer) {
    match o
    case HeadersReceived => e.ZERO?
    case BodyReceived => e.HEADER? || e.BODY?
    case TrailerReceived => e.BODY? || e.TRAILER?
    case Ended => !e.ZERO?
    case Pending => true
  }

  predicate Encodable(c: Conn)
    requires c.queue != []
  {
    Accepts(c.enc, GetState(c.queue[0]))
  }

  predicate Offers(c: Conn) { c.queue != [] && !GetState(c.queue[0]).Pending? }

  /** One round of `poll_local`: what the front response offers is taken and serialised. */
  function PollOnce(c: Conn): Conn
    requires Offers(c) && Encodable(c)
  {
    var r, rest, s := c.queue[0], c.queue[1..], c.log.current;
    match GetState(r)
    case HeadersReceived =>
      var p := r.head.value;
      Append(c.(queue := [r.(head := None)] + rest, enc := HEADER, chunked := p.chunked,
                log := c.log.(current := s.(head := Some(p)))), p.text)
    case BodyReceived =>
      Append(c.(queue := [r.(content := "")] + rest, enc := BODY,
                log := c.log.(current := s.(pieces := s.pieces + [r.content]))), BodyText(c.chunked, r.content))
    case TrailerReceived =>
      var t := r.trailers[0];
      Append(c.(queue := [r.(trailers := r.trailers[1..])] + rest, enc := TRAILER,
                log := c.log.(current := s.(trailers := s.trailers + [t]))), TrailerText(t.0, t.1))
    case Ended =>
      Append(c.(queue := rest, enc := ZERO, pending := c.pending + [r.id],
                log := c.log.(finished := c.log.finished + [s], current := NOTHING)), EomText(c.chunked, c.enc))
  }

  /** How much there is to poll. */
  function Work(q: seq<Local>): nat {
    if q == [] then 0
    else (if q[0].head.Some? then 1 else 0) + (if q[0].content != "" then 1 else 0) + |q[0].trailers| + 1 + Work(q[1..])
  }

  lemma WorkOfFront(q: seq<Local>, r: Local)
    requires q != []
    ensures Work([r] + q[1..]) == Work([r]) + Work(q) - Work([q[0]])
  {
    assert ([r] + q[1..])[1..] == q[1..] && [r][1..] == [] && [q[0]][1..] == [];
  }

  lemma SingleWork(r: Local, q: Local)
    ensures Work([r]) - Work([q])
      == (if r.head.Some? then 1 else 0) + (if r.content != "" then 1 else 0) + |r.trailers|
         - (if q.head.Some? then 1 else 0) - (if q.content != "" then 1 else 0) - |q.trailers|
  {
    assert [r][1..] == [] && [q][1..] == [];
  }

  /** What one round leaves of a response that has not ended, and of the encoder. */
  function Polled(r: Local): Local
    requires !GetState(r).Pending? && !GetState(r).Ended?
  {
    match GetState(r)
    case HeadersReceived => r.(head := None)
    case BodyReceived => r.(content := "")
    case TrailerReceived => r.(trailers := r.trailers[1..])
  }

  function EncoderAfter(o: Offer): EncoderState
    requires !o.Pending?
  {
    match o
    case HeadersReceived => HEADER
    case BodyReceived => BODY
    case TrailerReceived => TRAILER
    case Ended => ZERO
  }

  lemma RoundLeaves(c: Conn)
    requires Offers(c) && Encodable(c)
    ensures
      var d, r := PollOnce(c), c.queue[0];
      && d.enc == EncoderAfter(GetState(r))
      && d.queue == (if GetState(r).Ended? then [] else [Polled(r)]) + c.queue[1..]
  {
    hide BodyText, TrailerText, EomText;
  }

  /** Every round leaves less to poll. */
  lemma PollShrinks(c: Conn)
    requires Offers(c) && Encodable(c)
    ensures Work(PollOnce(c).queue) < Work(c.queue)
  {
    hide PollOnce;
    var r := c.queue[0];
    RoundLeaves(c);
    if GetState(r).Ended? {
      assert [] + c.queue[1..] == c.queue[1..];
    } else {
      WorkOfFront(c.queue, Polled(r));
      SingleWork(r, Polled(r));
    }
  }

  /** No assertion of the encoder fails while the handler polls. */
  predicate Polls(c: Conn)
    decreases Work(c.queue)
  {
    hide PollOnce, Work;
    !Offers(c) || (Encodable(c) && (PollShrinks(c); Polls(PollOnce(c))))
  }

  /* ---- the assertions, response by response ---------------------------- */

  /** Polling the response until it offers nothing more meets every assertion. */
  predicate Passes(e: EncoderState, r: Local)
    decreases Work([r])
  {
    SingleWork(r, r);
    var o := GetState(r);
    && Accepts(e, o)
    && (!o.Pending? && !o.Ended? ==> (SingleWork(r, Polled(r)); Passes(EncoderAfter(o), Polled(r))))
  }

  /** So does every response whose turn comes. */
  predicate AllPass(e: EncoderState, q: seq<Local>)
    decreases |q|
  {
    q == [] || (Passes(e, q[0]) && (q[0].ended ==> AllPass(ZERO, q[1..])))
  }

  /** The loop over the queue and the loop over a response: what polling asks of the responses. */
  lemma {:induction false} PollsMeans(c: Conn)
    ensures Polls(c) <==> AllPass(c.enc, c.queue)
    decreases Work(c.queue)
  {
    hide PollOnce, Work;
    if Offers(c) {
      var r := c.queue[0];
      if Encodable(c) {
        PollShrinks(c);
        RoundLeaves(c);
        PollsMeans(PollOnce(c));
        var d := PollOnce(c);
        if GetState(r).Ended? {
          assert d.queue == c.queue[1..];
        } else {
          assert d.queue[0] == Polled(r) && d.queue[1..] == c.queue[1..];
        }
      }
    }
  }

  /** What a response may hold in a given state of the encoder. */
  predicate Agrees(e: EncoderState, r: Local) {
    && (r.head.Some? ==> e.ZERO?)
    && (e.ZERO? && r.head.None? ==> r.content == "" && r.trailers == [] && !r.ended)
    && (r.trailers != [] ==> r.content != "" || e.BODY? || e.TRAILER?)
    && (e.TRAILER? ==> r.content == "")
  }

  /** The assertions in terms of what the response holds, whenever and in whatever order it was stored. */
  lemma {:induction false} PassesMeans(e: EncoderState, r: Local)
    ensures Passes(e, r) <==> Agrees(e, r)
    decreases Work([r])
  {
    var o := GetState(r);
    if !o.Pending? && !o.Ended? {
      SingleWork(r, Polled(r));
      PassesMeans(EncoderAfter(o), Polled(r));
    }
  }

  /* ---- what every run keeps ------------------------------------------- */

  function PiecesText(chunked: bool, pieces: seq<string>): string {
    if pieces == [] then ""
    else PiecesText(chunked, pieces[..|pieces| - 1]) + BodyText(chunked, pieces[|pieces| - 1])
  }

  /** The octets of what has been sent of a response. */
  function SentText(s: Sent): string {
    if s.head.None? then ""
      else s.head.value.text + PiecesText(s.head.value.chunked, s.pieces) + TrailersText(s.trailers)
  }

  function EncoderAt(s: Sent): EncoderState {
    if s.head.None? then ZERO else if s.trailers != [] then TRAILER else if s.pieces != [] then BODY else HEADER
  }

  function FinishedText(s: Sent): string
    requires s.head.Some?
  {
    SentText(s) + EomText(s.head.value.chunked, EncoderAt(s))
  }

  predicate AllHeaded(ss: seq<Sent>) { forall i :: 0 <= i < |ss| ==> ss[i].head.Some? }

  function AllText(ss: seq<Sent>): string
    requires AllHeaded(ss)
  {
    if ss == [] then "" else AllText(ss[..|ss| - 1]) + FinishedText(ss[|ss| - 1])
  }

  function Joined(pieces: seq<string>): string {
    if pieces == [] then "" else Joined(pieces[..|pieces| - 1]) + pieces[|pieces| - 1]
  }

  /** It makes up a response: nothing without a head, and no trailer without a body. */
  predicate Sensible(a: Said) {
    && (a.body != "" || a.trailers != [] || a.ended ==> a.head.Some?)
    && (a.trailers != [] ==> a.body != "")
  }

  /** Said, sent, and still held by the response: nothing lost, nothing twice, nothing out of order. */
  predicate Accounts(s: Sent, r: Local, a: Said) {
    && a.ended == r.ended
    && (if s.head.Some? then s.head == a.head && r.head.None? else r.head == a.head && s == NOTHING)
    && Joined(s.pieces) + r.content == a.body
    && s.trailers + r.trailers == a.trailers
    && (s.trailers != [] ==> r.content == "" && s.pieces != [])
    && (s.pieces != [] ==> Joined(s.pieces) != "")
  }

  /** Exactly what was said has been sent. */
  predicate Faithful(s: Sent, a: Said) {
    s.head.Some? && s.head == a.head && Joined(s.pieces) == a.body && s.trailers == a.trailers && Sensible(a) && a.ended
  }

  predicate QueueInv(c: Conn) {
    var n := |c.log.finished|;
    && |c.log.said| == n + |c.queue|
    && (forall i :: 0 <= i < |c.queue| ==> c.queue[i].id == n + i)
    && (forall i :: 1 <= i < |c.queue| ==> Accounts(NOTHING, c.queue[i], c.log.said[n + i]))
    && (if c.queue == [] then c.log.current == NOTHING else Accounts(c.log.current, c.queue[0], c.log.said[n]))
  }

  predicate SentInv(c: Conn) {
    && AllHeaded(c.log.finished)
    && |c.log.finished| <= |c.log.said|
    && (forall i :: 0 <= i < |c.log.finished| ==> Faithful(c.log.finished[i], c.log.said[i]))
    && c.log.emitted == AllText(c.log.finished) + SentText(c.log.current)
    && (!c.log.dropped ==>
          c.enc == EncoderAt(c.log.current)
          && (c.log.current.head.Some? ==> c.chunked == c.log.current.head.value.chunked))
  }

  function InFlight(l: Link): Flight { if l.flights == [] then Flight("", []) else l.flights[0] }

  function Upto(n: nat): seq<nat> { seq(n, i => i) }

  /** Write conservation and acknowledgement. */
  predicate LinkInv(c: Conn) {
    var l, n := c.link, |c.log.finished|;
    var f := InFlight(l);
    && AllHeaded(c.log.finished)
    && |l.flights| == (if l.writing then 1 else 0)
    && (l.writing ==> f.text == l.out && l.failed == [])
    && (if l.stopped then l.written + f.text <= c.log.emitted
        else l.written + f.text + c.serialization == c.log.emitted && l.failed == [])
    && l.succeeded + l.failed + f.feedbacks + c.pending == Upto(n)
    && |AllText(c.log.finished[..|l.succeeded|])| <= |l.written|
    && (l.writing ==> |AllText(c.log.finished[..|l.succeeded| + |f.feedbacks|])| <= |l.written + f.text|)
  }

  predicate Inv(c: Conn) {
    && SentInv(c) && LinkInv(c)
    && (if c.log.dropped then c.link.stopped && c.queue == [] else QueueInv(c))
  }

  lemma AllTextMore(ss: seq<Sent>, s: Sent)
    requires AllHeaded(ss) && s.head.Some?
    ensures AllHeaded(ss + [s]) && AllText(ss + [s]) == AllText(ss) + FinishedText(s)
  {
    hide FinishedText;
    assert (ss + [s])[..|ss|] == ss;
  }

  lemma DoWriteKeeps(c: Conn)
    requires SentInv(c) && LinkInv(c)
    ensures SentInv(DoWrite(c)) && LinkInv(DoWrite(c))
  {
    hide AllText, SentText, AllHeaded, Faithful, EncoderAt;
    var l, d := c.link, DoWrite(c);
    if !l.writing && !l.stopped {
      assert l.succeeded + l.failed + [] + c.pending == l.succeeded + c.pending;
      assert c.log.finished[..|c.log.finished|] == c.log.finished;
      if c.serialization == "" {
        assert l.written + "" + "" == l.written;
        assert d.link.succeeded + [] + [] + [] == l.succeeded + c.pending;
      } else {
        assert [] + [Flight(c.serialization, c.pending)] == [Flight(c.serialization, c.pending)];
        assert l.written + "" + c.serialization == l.written + c.serialization + "";
        assert l.succeeded + [] + c.pending + [] == l.succeeded + c.pending;
      }
    }
  }

  /** Serialising more text does not disturb what is being written. */
  lemma AddKeepsLink(c: Conn, d: Conn, text: string)
    requires LinkInv(c) && d.link == c.link && d.pending == c.pending && d.log.finished == c.log.finished
    requires d.serialization == c.serialization + text && d.log.emitted == c.log.emitted + text
    ensures LinkInv(d)
  {
    hide AllText;
    var w := c.link.written + InFlight(c.link).text;
    assert w + c.serialization + text == w + (c.serialization + text);
    assert w <= c.log.emitted ==> w <= c.log.emitted + text;
  }

  lemma DoWriteKeepsInv(c: Conn)
    requires Inv(c)
    ensures Inv(DoWrite(c)) && DoWrite(c).queue == c.queue
  {
    hide SentInv, LinkInv, Accounts;
    DoWriteKeeps(c);
  }

  /** The front response has handed over some text, and keeps the rest. */
  predicate Handover(c: Conn, d: Conn, text: string) {
    && c.queue != [] && d.queue != [] && d.queue[1..] == c.queue[1..] && d.queue[0].id == c.queue[0].id
    && d.link == c.link && d.pending == c.pending && d.serialization == c.serialization + text
    && d.log == c.log.(emitted := c.log.emitted + text, current := d.log.current)
    && SentText(d.log.current) == SentText(c.log.current) + text
    && d.enc == EncoderAt(d.log.current)
    && (d.log.current.head.Some? ==> d.chunked == d.log.current.head.value.chunked)
  }

  lemma HandoverKeeps(c: Conn, d: Conn, text: string)
    requires Inv(c) && Handover(c, d, text) && |c.log.finished| < |c.log.said|
    requires Accounts(d.log.current, d.queue[0], c.log.said[|c.log.finished|])
    ensures Inv(DoWrite(d))
  {
    hide AllText, LinkInv, Accounts, SentText, Faithful, AllHeaded, EncoderAt;
    AddKeepsLink(c, d, text);
    assert c.log.emitted + text == AllText(c.log.finished) + (SentText(c.log.current) + text);
    assert forall i :: 1 <= i < |c.queue| ==> d.queue[i] == d.queue[1..][i - 1] && c.queue[i] == c.queue[1..][i - 1];
    DoWriteKeepsInv(d);
  }

  lemma HeadPolled(c: Conn)
    requires Inv(c) && Offers(c) && Encodable(c) && GetState(c.queue[0]).HeadersReceived?
    ensures Inv(PollOnce(c))
  {
    hide AllText, LinkInv, SentInv, Inv, SentText, Joined;
    var r, s := c.queue[0], c.log.current;
    var p := r.head.value;
    var t := s.(head := Some(p));
    FrontKnows(c);
    HeadText(p);
    var d := Add(c.(queue := [r.(head := None)] + c.queue[1..], enc := HEADER, chunked := p.chunked,
                    log := c.log.(current := t)), p.text);
    HandoverKeeps(c, d, p.text);
    assert PollOnce(c) == DoWrite(d);
  }

  lemma HeadText(p: Preamble)
    ensures SentText(NOTHING) == "" && SentText(Sent(Some(p), [], [])) == SentText(NOTHING) + p.text
  {
    assert p.text + "" + "" == p.text;
  }

  /** What the invariant says about the front response. */
  lemma FrontKnows(c: Conn)
    requires Inv(c) && c.queue != []
    ensures |c.log.finished| < |c.log.said| && c.enc == EncoderAt(c.log.current)
    ensures Accounts(c.log.current, c.queue[0], c.log.said[|c.log.finished|])
    ensures c.log.current.head.Some? ==> c.chunked == c.log.current.head.value.chunked
    ensures c.log.current == NOTHING ==> SentText(c.log.current) == ""
    ensures !c.log.dropped && c.queue[0].id == |c.log.finished|
  {
    hide LinkInv, Accounts;
  }

  lemma BodyPolled(c: Conn)
    requires Inv(c) && Offers(c) && Encodable(c) && GetState(c.queue[0]).BodyReceived?
    ensures Inv(PollOnce(c))
  {
    hide AllText, LinkInv, SentInv, Inv, SentText, Joined, BodyText;
    FrontKnows(c);
    var r, s := c.queue[0], c.log.current;
    var text := BodyText(c.chunked, r.content);
    var t := s.(pieces := s.pieces + [r.content]);
    var d := Add(c.(queue := [r.(content := "")] + c.queue[1..], enc := BODY, log := c.log.(current := t)), text);
    PiecesMore(s, r.content);
    assert Joined(t.pieces) + "" == Joined(s.pieces) + r.content;
    HandoverKeeps(c, d, text);
    assert PollOnce(c) == DoWrite(d);
  }

  lemma PiecesMore(s: Sent, piece: string)
    requires s.head.Some? && s.trailers == []
    ensures SentText(s.(pieces := s.pieces + [piece])) == SentText(s) + BodyText(s.head.value.chunked, piece)
    ensures Joined(s.pieces + [piece]) == Joined(s.pieces) + piece
  {
    hide BodyText;
    var p := s.head.value;
    assert (s.pieces + [piece])[..|s.pieces|] == s.pieces;
    var a, b := PiecesText(p.chunked, s.pieces), BodyText(p.chunked, piece);
    assert p.text + (a + b) + "" == p.text + a + "" + b;
  }

  lemma TrailersMore(s: Sent, t: (string, string))
    requires s.head.Some?
    ensures SentText(s.(trailers := s.trailers + [t])) == SentText(s) + TrailerText(t.0, t.1)
  {
    hide TrailerText;
    assert (s.trailers + [t])[..|s.trailers|] == s.trailers;
    var a := s.head.value.text + PiecesText(s.head.value.chunked, s.pieces);
    assert a + (TrailersText(s.trailers) + TrailerText(t.0, t.1))
      == a + TrailersText(s.trailers) + TrailerText(t.0, t.1);
  }

  lemma TrailerPolled(c: Conn)
    requires Inv(c) && Offers(c) && Encodable(c) && GetState(c.queue[0]).TrailerReceived?
    ensures Inv(PollOnce(c))
  {
    hide AllText, LinkInv, SentInv, Inv, SentText, Joined, TrailerText;
    FrontKnows(c);
    var r, s := c.queue[0], c.log.current;
    var t := r.trailers[0];
    var text := TrailerText(t.0, t.1);
    var u := s.(trailers := s.trailers + [t]);
    var d := Add(c.(queue := [r.(trailers := r.trailers[1..])] + c.queue[1..], enc := TRAILER,
      log := c.log.(current := u)), text);
    TrailersMore(s, t);
    assert (s.trailers + [t]) + r.trailers[1..] == s.trailers + r.trailers;
    HandoverKeeps(c, d, text);
    assert PollOnce(c) == DoWrite(d);
  }

  /** A response that has ended leaves the queue, sent exactly as it was said. */
  lemma EndPolled(c: Conn)
    requires Inv(c) && Offers(c) && Encodable(c) && GetState(c.queue[0]).Ended?
    ensures Inv(PollOnce(c))
  {
    hide AllText, SentText, LinkInv, SentInv, QueueInv, Accounts, FinishedText, Faithful, EomText, EncoderAt;
    FrontKnows(c);
    var r, rest, s := c.queue[0], c.queue[1..], c.log.current;
    EndFaithful(s, r, c.log.said[|c.log.finished|]);
    var text := EomText(c.chunked, c.enc);
    var d := Add(c.(queue := rest, enc := ZERO, pending := c.pending + [r.id],
                    log := c.log.(finished := c.log.finished + [s], current := NOTHING)), text);
    EndKeepsLink(c, d, s, r.id, text);
    EndKeepsSent(c, d, s, text);
    QueueMoves(c, d);
    DoWriteKeepsInv(d);
  }

  lemma QueueMoves(c: Conn, d: Conn)
    requires QueueInv(c) && c.queue != [] && d.queue == c.queue[1..] && d.log.said == c.log.said
    requires |d.log.finished| == |c.log.finished| + 1 && d.log.current == NOTHING
    ensures QueueInv(d)
  {
    hide Accounts;
    assert forall i :: 0 <= i < |d.queue| ==> d.queue[i] == c.queue[i + 1];
  }

  lemma EndFaithful(s: Sent, r: Local, a: Said)
    requires Accounts(s, r, a) && GetState(r).Ended? && !EncoderAt(s).ZERO?
    ensures Faithful(s, a) && s.head.Some?
  {
    assert Joined(s.pieces) + "" == Joined(s.pieces) && s.trailers + [] == s.trailers;
  }

  lemma NothingText()
    ensures SentText(NOTHING) == "" && EncoderAt(NOTHING) == ZERO
  {
  }

  lemma EndKeepsSent(c: Conn, d: Conn, s: Sent, text: string)
    requires SentInv(c) && s == c.log.current && s.head.Some?
    requires text == EomText(s.head.value.chunked, EncoderAt(s))
    requires s.head.Some? && |c.log.finished| < |c.log.said| && Faithful(s, c.log.said[|c.log.finished|])
    requires d.log == c.log.(finished := c.log.finished + [s], current := NOTHING, emitted := c.log.emitted + text)
    requires d.enc == ZERO
    ensures SentInv(d)
  {
    hide AllText, SentText, Faithful, EomText, EncoderAt, AllHeaded;
    var ss := c.log.finished;
    NothingText();
    AllTextMore(ss, s);
    assert c.log.emitted + text == AllText(ss) + FinishedText(s) + "" by {
      assert AllText(ss) + SentText(s) + text == AllText(ss) + (SentText(s) + text) + "";
    }
    forall i | 0 <= i <= |ss| ensures Faithful((ss + [s])[i], c.log.said[i]) {
      assert i < |ss| ==> (ss + [s])[i] == ss[i];
    }
  }

  lemma EndKeepsLink(c: Conn, d: Conn, s: Sent, id: nat, text: string)
    requires LinkInv(c) && d.link == c.link && s.head.Some? && id == |c.log.finished|
    requires d.pending == c.pending + [id] && d.log.finished == c.log.finished + [s]
    requires d.serialization == c.serialization + text && d.log.emitted == c.log.emitted + text
    ensures LinkInv(d)
  {
    hide AllText;
    var l, f, n := c.link, InFlight(c.link), |c.log.finished|;
    var w := l.written + f.text;
    assert w + c.serialization + text == w + (c.serialization + text);
    assert w <= c.log.emitted ==> w <= c.log.emitted + text;
    var acks := l.succeeded + l.failed + f.feedbacks;
    assert acks + (c.pending + [n]) == (acks + c.pending) + [n] == Upto(n + 1);
    assert |l.succeeded| + |l.failed| + |f.feedbacks| + |c.pending| == |Upto(n)| == n;
    forall k | 0 <= k <= n ensures d.log.finished[..k] == c.log.finished[..k] { }
  }

  /** Polling keeps everything, where the assertions of the encoder hold. */
  lemma PollOnceKeeps(c: Conn)
    requires Inv(c) && Offers(c) && Encodable(c)
    ensures Inv(PollOnce(c))
  {
    hide Inv, PollOnce;
    match GetState(c.queue[0])
    case HeadersReceived => HeadPolled(c);
    case BodyReceived => BodyPolled(c);
    case TrailerReceived => TrailerPolled(c);
    case Ended => EndPolled(c);
  }

  /** A connector that is neither writing nor stopped has nothing left to write and nobody left to tell. */
  predicate Idle(c: Conn) { !c.link.writing && !c.link.stopped ==> c.serialization == "" && c.pending == [] }

  lemma PollIdles(c: Conn)
    requires Offers(c) && Encodable(c)
    ensures Idle(PollOnce(c))
  {
    hide BodyText, EomText, TrailerText;
  }

  /** Between events nothing that could be sent is waiting anywhere. */
  predicate Settled(c: Conn) { !Offers(c) && Idle(c) }

  /** What holds whenever the handler is about to poll. */
  predicate Sound(c: Conn) { Inv(c) && Idle(c) && Polls(c) }

  /** `notify_local_content`: the loop over the queue and the loop of `poll_local`. */
  function Notify(c: Conn): (d: Conn)
    requires Sound(c)
    ensures Inv(d) && Settled(d)
    decreases Work(c.queue)
  {
    hide Inv, Work, PollOnce, Idle;
    if !Offers(c) then c else (PollOnceKeeps(c); PollIdles(c); PollShrinks(c); Notify(PollOnce(c)))
  }

  /** One round of the loop. */
  lemma NotifyPolls(c: Conn)
    requires Sound(c)
    ensures
      if Offers(c) then
        Encodable(c) && Sound(PollOnce(c)) && Notify(c) == Notify(PollOnce(c))
          && Work(PollOnce(c).queue) < Work(c.queue)
      else Notify(c) == c
  {
    hide Inv, Work, PollOnce, Idle, Offers;
    if Offers(c) {
      PollOnceKeeps(c);
      PollIdles(c);
      PollShrinks(c);
    }
  }

  /* ---- runs ----------------------------------------------------------- */

  /** What an application can say to a response. */
  datatype Call = Headers(p: Preamble) | Body(text: string) | Trailer(key: string, value: string) | End

  /** What else can happen to a connection. */
  datatype Step =
    | Request                     // a request begins: its response is queued
    | Say(id: nat, call: Call)    // the application calls the response of that request
    | Written | WriteFailed       // the outstanding write completes
    | Stop                        // the connector stops, for instance after a bad read
    | Close                       // the user closes the connection
    | Destroyed                   // the last reference to the connector goes away

  /** The callbacks of `http::response`. */
  function Hear(r: Local, call: Call): Local {
    match call
    case Headers(p) => r.(head := Some(p))
    case Body(text) => r.(content := r.content + text)
    case Trailer(k, v) => r.(trailers := r.trailers + [(k, v)])
    case End => r.(ended := true)
  }

  function Note(a: Said, call: Call): Said {
    match call
    case Headers(p) => a.(head := Some(p))
    case Body(text) => a.(body := a.body + text)
    case Trailer(k, v) => a.(trailers := a.trailers + [(k, v)])
    case End => a.(ended := true)
  }

  /** A response that is no longer listed is not heard. */
  function Listen(c: Conn, id: nat, call: Call): Conn
    requires id < |c.log.said|
  {
    var i := id - |c.log.finished|;
    if c.log.dropped || !(0 <= i < |c.queue|) then c
    else
      c.(queue := c.queue[i := Hear(c.queue[i], call)],
         log := c.log.(said := c.log.said[id := Note(c.log.said[id], call)]))
  }

  /**
   What can happen next; a call of the application, if no assertion fails when the handler
   polls what the call has stored.
   */
  predicate Allowed(c: Conn, e: Step) {
    match e
    case Request => !c.log.dropped
    case Say(id, call) => id < |c.log.said| && Polls(Listen(c, id, call))
    case Written => c.link.flights != []
    case WriteFailed => c.link.flights != []
    case Destroyed => !c.link.writing
    case _ => true
  }

  /** The order in which an application may call the response that is being sent. */
  predicate MaySay(a: Said, call: Call) {
    && !a.ended
    && match call
       case Headers(_) => a.head.None?
       case Body(_) => a.head.Some? && a.trailers == []
       case Trailer(_, _) => a.body != ""
       case End => a.head.Some?
  }

  function Drop(c: Conn): Conn { c.(queue := [], link := c.link.(stopped := true), log := c.log.(dropped := true)) }

  /** A response that offers nothing has handed over everything. */
  lemma FrontIsDry(s: Sent, r: Local, a: Said)
    requires Accounts(s, r, a) && GetState(r).Pending?
    ensures !a.ended && s.head == a.head && Joined(s.pieces) == a.body && s.trailers == a.trailers
  {
    assert Joined(s.pieces) + "" == Joined(s.pieces) && s.trailers + [] == s.trailers;
    if s.head.None? { assert Joined([]) == ""; }
  }

  lemma NextCall(s: Sent, r: Local, a: Said, call: Call)
    requires Accounts(s, r, a) && GetState(r).Pending?
    ensures Agrees(EncoderAt(s), Hear(r, call)) <==> MaySay(a, call) || call == Call.Body("")
  {
    FrontIsDry(s, r, a);
    assert s.pieces == [] ==> Joined(s.pieces) == "";
    hide Joined;
  }

  /** A call on the response that is being sent. */
  lemma HearKeeps(s: Sent, r: Local, a: Said, call: Call)
    requires Accounts(s, r, a) && (MaySay(a, call) || call == Call.Body(""))
    ensures Accounts(s, Hear(r, call), Note(a, call))
  {
    match call
    case Headers(p) =>
    case Body(text) =>
      assert Joined(s.pieces) + r.content + text == Joined(s.pieces) + (r.content + text);
      assert r.content + "" == r.content;
    case Trailer(k, v) => assert s.trailers + r.trailers + [(k, v)] == s.trailers + (r.trailers + [(k, v)]);
    case End =>
  }

  /** Any call on one that waits. */
  lemma WaitingKeeps(r: Local, a: Said, call: Call)
    requires Accounts(NOTHING, r, a)
    ensures Accounts(NOTHING, Hear(r, call), Note(a, call))
  {
    var x := Joined([]);
    match call
    case Headers(p) =>
    case Body(text) => assert x + r.content + text == x + (r.content + text);
    case Trailer(k, v) => assert [] + r.trailers + [(k, v)] == [] + (r.trailers + [(k, v)]);
    case End =>
  }

  /**
   The assertions of the encoder are exactly the order of the calls: for the
   response that is being sent, polling after a call meets them if and only if the
   call comes in this order, or is an empty body.  In particular a trailer needs a
   body before it.
   */
  lemma AssertionsAreOrder(c: Conn, call: Call)
    requires Inv(c) && Settled(c) && !c.log.dropped && c.queue != []
    ensures
      var n := |c.log.finished|;
      && n < |c.log.said|
      && (Passes(c.enc, Listen(c, n, call).queue[0]) <==> MaySay(c.log.said[n], call) || call == Call.Body(""))
  {
    FrontKnows(c);
    hide Inv, Idle, Joined, SentText, Accounts, GetState, EncoderAt, MaySay, Encodable, Hear, Passes, Agrees;
    var n := |c.log.finished|;
    NextCall(c.log.current, c.queue[0], c.log.said[n], call);
    assert Listen(c, n, call).queue[0] == Hear(c.queue[0], call);
    PassesMeans(c.enc, Hear(c.queue[0], call));
  }

  lemma PollsFront(c: Conn)
    requires Polls(c) && c.queue != []
    ensures Passes(c.enc, c.queue[0])
  {
    hide Polls, Passes;
    PollsMeans(c);
  }

  lemma FrontListens(c: Conn, call: Call)
    requires Inv(c) && Settled(c) && !c.log.dropped && c.queue != [] && |c.log.finished| < |c.log.said|
    requires Polls(Listen(c, |c.log.finished|, call))
    ensures Accounts(c.log.current, Hear(c.queue[0], call), Note(c.log.said[|c.log.finished|], call))
  {
    FrontKnows(c);
    hide Inv, Settled, Accounts, MaySay, Hear, Note, Polls, Passes;
    var n := |c.log.finished|;
    PollsFront(Listen(c, n, call));
    AssertionsAreOrder(c, call);
    HearKeeps(c.log.current, c.queue[0], c.log.said[n], call);
  }

  lemma ListenKeeps(c: Conn, id: nat, call: Call)
    requires Inv(c) && Settled(c) && id < |c.log.said| && Polls(Listen(c, id, call))
    ensures Inv(Listen(c, id, call))
  {
    hide Accounts, LinkInv, AllText, SentText, Hear, Note, EncoderAt, AllHeaded, Polls, Settled, Faithful;
    var n := |c.log.finished|;
    var d := Listen(c, id, call);
    if !c.log.dropped && n <= id {
      var i := id - n;
      if i == 0 { FrontListens(c, call); } else { WaitingKeeps(c.queue[i], c.log.said[id], call); }
      HearSame(c.queue[i], call);
      SameLink(c, d);
    }
  }

  lemma HearSame(r: Local, call: Call)
    ensures Hear(r, call).id == r.id
  {
  }

  lemma SameLink(c: Conn, d: Conn)
    requires LinkInv(c) && d.link == c.link && d.pending == c.pending && d.serialization == c.serialization
    requires d.log.finished == c.log.finished && d.log.emitted == c.log.emitted
    ensures LinkInv(d)
  {
    hide AllText;
  }

  /** Only the connector has moved. */
  lemma LinkMoves(c: Conn, d: Conn)
    requires Inv(c) && d == c.(link := d.link, pending := d.pending) && LinkInv(d)
    requires c.log.dropped ==> d.link.stopped
    ensures Inv(d)
  {
    hide LinkInv, AllText, SentText, EncoderAt, AllHeaded, Accounts, Faithful;
  }

  lemma CompletedKeeps(c: Conn)
    requires Inv(c) && c.link.flights != []
    ensures Inv(Completed(c)) && Completed(c).queue == c.queue
  {
    hide AllText, SentText, EncoderAt, QueueInv, AllHeaded;
    var l, f := c.link, c.link.flights[0];
    var d := c.(link := l.(writing := false, flights := l.flights[1..],
                           written := l.written + f.text, succeeded := l.succeeded + f.feedbacks));
    assert l.written + f.text + "" == l.written + f.text;
    assert l.succeeded + f.feedbacks + [] + [] + c.pending == l.succeeded + [] + f.feedbacks + c.pending;
    LinkMoves(c, d);
    DoWriteKeepsInv(d);
  }

  lemma BrokenKeeps(c: Conn)
    requires Inv(c) && c.link.flights != []
    ensures Inv(Broken(c)) && Broken(c).queue == c.queue
  {
    hide AllText, SentText, EncoderAt, QueueInv, AllHeaded;
    var l, f := c.link, c.link.flights[0];
    assert l.written + "" == l.written <= l.written + f.text;
    assert l.succeeded + [] + f.feedbacks + c.pending == l.succeeded + ([] + f.feedbacks) + [] + c.pending;
    LinkMoves(c, Broken(c));
  }

  lemma StopKeeps(c: Conn)
    requires Inv(c)
    ensures Inv(c.(link := c.link.(stopped := true))) && Inv(Drop(c))
  {
    hide AllText, SentText, EncoderAt, QueueInv, AllHeaded, Faithful;
    LinkMoves(c, c.(link := c.link.(stopped := true)));
  }

  /** `on_connector_nulled`: the feedbacks still pending report their failure. */
  function Nulled(c: Conn): Conn {
    if c.log.dropped then c
    else Drop(c.(pending := [], link := c.link.(failed := c.link.failed + c.pending)))
  }

  lemma NulledKeeps(c: Conn)
    requires Inv(c) && !c.link.writing
    ensures Inv(Nulled(c))
  {
    hide AllText, SentText, EncoderAt, QueueInv, AllHeaded;
    var l := c.link;
    assert l.succeeded + l.failed + [] + c.pending == l.succeeded + (l.failed + c.pending) + [] + [];
  }

  /** `get_user_handlers`: a new response is queued. */
  function Opened(c: Conn): Conn {
    c.(queue := c.queue + [Local(|c.log.said|, None, "", [], false)],
       log := c.log.(said := c.log.said + [Said(None, "", [], false)]))
  }

  lemma OpenedKeeps(c: Conn)
    requires Inv(c) && !c.log.dropped && Settled(c)
    ensures Inv(Opened(c)) && Settled(Opened(c))
  {
    hide LinkInv, AllText, SentText, EncoderAt, AllHeaded, Accounts, Faithful;
    SameLink(c, Opened(c));
    NewAccounts(|c.log.said|);
    var n := |c.log.finished|;
    var d := Opened(c);
    assert forall i :: 1 <= i < |d.queue| ==> Accounts(NOTHING, d.queue[i], d.log.said[n + i]);
  }

  lemma NewAccounts(id: nat)
    ensures Accounts(NOTHING, Local(id, None, "", [], false), Said(None, "", [], false))
  {
    assert Joined([]) + "" == "";
  }

  /** One event in the life of a connection. */
  function Advance(c: Conn, e: Step): (d: Conn)
    requires Inv(c) && Settled(c) && Allowed(c, e)
    ensures Inv(d) && Settled(d)
  {
    hide Inv, Settled, Listen, Completed, Broken, Opened, Drop, Nulled;
    match e
    case Request => OpenedKeeps(c); Opened(c)
    case Say(id, call) => ListenKeeps(c, id, call); ListenIdles(c, id, call); Notify(Listen(c, id, call))
    case Written => CompletedKeeps(c); CompletedSettles(c); Completed(c)
    case WriteFailed => BrokenKeeps(c); StopSettles(c); Broken(c)
    case Stop => StopKeeps(c); StopSettles(c); c.(link := c.link.(stopped := true))
    case Close => StopKeeps(c); StopSettles(c); Drop(c)
    case Destroyed => NulledKeeps(c); StopSettles(c); Nulled(c)
  }

  lemma ListenIdles(c: Conn, id: nat, call: Call)
    requires id < |c.log.said| && Settled(c)
    ensures Idle(Listen(c, id, call))
  {
  }

  lemma CompletedSettles(c: Conn)
    requires Settled(c) && c.link.flights != []
    ensures Settled(Completed(c))
  {
  }

  lemma StopSettles(c: Conn)
    requires Settled(c)
    ensures Settled(Drop(c)) && Settled(Nulled(c)) && Settled(c.(link := c.link.(stopped := true)))
    ensures c.link.flights != [] ==> Settled(Broken(c))
  {
  }

  /** Every step of a run is allowed where it happens. */
  predicate Legal(c: Conn, run: seq<Step>)
    requires Inv(c) && Settled(c)
    decreases |run|
  {
    hide Inv, Settled, Advance;
    run == [] || (Allowed(c, run[0]) && Legal(Advance(c, run[0]), run[1..]))
  }

  function Outcome(c: Conn, run: seq<Step>): (d: Conn)
    requires Inv(c) && Settled(c) && Legal(c, run)
    ensures Inv(d) && Settled(d)
    decreases |run|
  {
    hide Inv, Settled, Advance;
    if run == [] then c else Outcome(Advance(c, run[0]), run[1..])
  }
}
