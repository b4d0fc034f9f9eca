/** What a receiver is told of a message that an encoder printed, read by read. */
module Telling {
  import opened Ascii
  import opened Numerals
  import opened ParserTypes
  import opened ParserStep
  import opened ParserMachine
  import opened ParserWords
  import opened Fragmentation
  import opened FieldNames
  import opened HeaderLines
  import opened ChunkedCoding
  import opened MethodNames
  import opened FirstLines
  import opened Persistence
  import opened RequestLine
  import opened HttpEncoder
  import opened RoundTrip
  import opened HttpDecoder
  import opened Additions
  import opened Decoding
  import opened Reads
  import opened ParserCalls

  /* ---- what is told ---------------------------------------------------- */

  /** What the receiver of a message is told about its body and trailer. */
  function BodyTold(body: string, t: Trailer): seq<Notice> {
    (if body == "" then [] else [BodyPart(body)])
    + (if t.None? then [] else [TrailerField(t.value.0, Trimmed(t.value.1))])
    + [Done]
  }

  function OpeningTold(r: Message, location: L.Location): Opening {
    match r.first
    case Reply(_, status, reason) => Answered(status, reason)
    case Ask(_, verb, _, _, _) => Asked(verb, WithHost(location, Fields(r)))
  }

  function HeadTold(r: Message, version: Version, location: L.Location): Notice
    requires Sendable(r)
  {
    var line := LineOf(r.first);
    Notice.Head(version, OpeningTold(r, location), Fields(r), Persists(r.first, Fields(r)))
  }

  /** Everything that the receiver of a message is told, but for the version and the location. */
  function Told(r: Message, version: Version, location: L.Location): seq<Notice>
    requires Sendable(r)
  {
    [Began, HeadTold(r, version, location)] + BodyTold(Concat(r.bodies), r.trailer)
  }

  /** The version of the first message on a connection is the version of all. */
  function Known(v: Version, r: Message): Version { if v.Unset? then VersionOf(r.first.minor) else v }

  /** The pieces in which the target of the first message arrives. */
  function PiecesOf(f: FirstLine, frags: seq<string>): seq<string> {
    if f.Ask? then Pieces(Front(Back(frags, |PrintedName(f.verb)| + 1), |TargetOf(f)|)) else []
  }

  function LocationTold(f: FirstLine, frags: seq<string>): L.Location {
    L.OnTargets(L.UNLOCATED, PiecesOf(f, frags)).told
  }

  /* ---- a message after its first line ---------------------------------- */

  /** What is held when the first line has been read. */
  function Opened(requests: bool, v: Version, out: seq<Notice>, f: FirstLine, l: L.Locator): Held {
    Empty(requests, v, out + [Began]).(locator := l, answered := f.Reply?, reason := ReasonOf(f))
  }

  /** The callbacks after those for the first line. */
  function RestEvents(r: Message): seq<Event>
    requires Sendable(r)
  {
    var line := LineOf(r.first);
    LineEvents(Fields(r)) + [HeadersComplete(line, Persists(r.first, Fields(r)))]
    + (if r.chunked then ChunkedEvents(r.bodies, r.trailer) else SizedEvents(Concat(r.bodies)))
  }

  lemma EventsSplit(r: Message)
    requires Sendable(r)
    ensures WireEvents(r) == [MessageBegin, LineData(r.first)] + RestEvents(r)
  {
    hide LineEvents, Persists, HeadMatcher, ChunkedEvents, SizedEvents, Concat, Grouped, Lawful, CleanPairs,
      CleanLine;
  }

  /** Nothing is accumulated before the first field of a header block, and what is there can be stored. */
  predicate Tidy(h: Held) {
    && !h.headersDone && !h.ignore && (!h.gotHeader ==> h.key == "" && h.value == "")
    && (h.gotHeader ==> Takes(h.key, h.value))
  }

  lemma DeliverTwo(h: Held, e: Event, f: Event)
    ensures DeliverAll(h, [e, f]) == Deliver(Deliver(h, e), f)
    ensures AllTolerated(h, [e, f]) <==> Tolerated(h, e) && Tolerated(Deliver(h, e), f)
  {
    hide Deliver, Tolerated;
    DeliverOne(h, e);
    OneTolerated(h, e);
    assert [e, f][..1] == [e];
  }

  lemma LineDelivered(h: Held, k: string, v: string)
    requires Tidy(h) && Takes(k, v)
    ensures Tolerated(h, Data(Field, k)) && Tolerated(Deliver(h, Data(Field, k)), Data(Value, v))
    ensures
      var g := Deliver(Deliver(h, Data(Field, k)), Data(Value, v));
      Tidy(g) && Stored(g) == Stored(h).(fields := Stored(h).fields + [(k, v)])
  {
    hide Takes;
    assert "" + k == k && "" + v == v;
  }

  lemma {:induction false} LinesDelivered(h: Held, ps: Pairs)
    requires Tidy(h) && forall i :: 0 <= i < |ps| ==> Takes(ps[i].0, ps[i].1)
    ensures AllTolerated(h, LineEvents(ps))
    ensures
      var g := DeliverAll(h, LineEvents(ps));
      Tidy(g) && Stored(g) == Stored(h).(fields := Stored(h).fields + ps)
    decreases |ps|
  {
    hide Deliver, Tolerated, Tidy, Takes;
    if ps == [] {
      assert Stored(h).fields + [] == Stored(h).fields;
    } else {
      var (k, v) := ps[0];
      var two := [Data(Field, k), Data(Value, v)];
      DeliverTwo(h, two[0], two[1]);
      LineDelivered(h, k, v);
      var g := DeliverAll(h, two);
      LinesDelivered(g, ps[1..]);
      DeliverConcat(h, two, LineEvents(ps[1..]));
      ToleratedConcat(h, two, LineEvents(ps[1..]));
      assert Stored(h).fields + [(k, v)] + ps[1..] == Stored(h).fields + ps;
    }
  }

  /** The lengths that lawful lines announce are numbers. */
  lemma DigitsAreNumeric(v: string)
    requires v != "" && IsDigits(v) && Decimal(v) <= U64_MAX
    ensures Numeric(v)
  {
    hide Decimal;
    assert IsNum(v[0]) && SkipSpace(v) == v;
    assert U.DigitsUpTo(v, 0) == |v|;
    assert v[0..|v|] == v;
  }

  lemma LineTakes(k: string, v: string, seen: bool)
    requires CleanKey(k) && CleanValue(v) && Lawful([(k, v)], seen)
    ensures Takes(k, v)
  {
    hide Numeric, Decimal, CleanValue;
    if LowerCase(k) == "content-length" {
      assert LowerName(k) == CONTENT_LENGTH;
      DigitsAreNumeric(v);
    }
  }

  lemma {:induction false} LawfulTakes(ps: Pairs, seen: bool)
    requires CleanPairs(ps) && Lawful(ps, seen)
    ensures forall i :: 0 <= i < |ps| ==> Takes(ps[i].0, ps[i].1)
    decreases |ps|
  {
    hide Takes, IsToken, CleanValue, Decimal, LowerName;
    if ps != [] {
      var isLength := LowerName(ps[0].0) == CONTENT_LENGTH;
      assert [ps[0]][1..] == [] && Lawful([], true) && Lawful([], seen);
      LineTakes(ps[0].0, ps[0].1, seen);
      LawfulTakes(ps[1..], seen || isLength);
      forall i | 0 <= i < |ps| ensures Takes(ps[i].0, ps[i].1) {
        if i > 0 { assert ps[i] == ps[1..][i - 1]; }
      }
    }
  }

  /** The state after a header block: only the notices matter from here on. */
  predicate Past(h: Held, requests: bool, v: Version, out: seq<Notice>) {
    && h.headersDone && !h.ignore && !h.gotHeader && h.key == "" && h.value == ""
    && h.requests == requests && h.version == v && h.out == out
  }

  /** The end of a header block. */
  lemma HeadEndDelivered(
    h: Held, requests: bool, v: Version, out: seq<Notice>, f: FirstLine, l: L.Locator, ps: Pairs, keepAlive: bool)
    requires Tidy(h) && Stored(h) == Opened(requests, v, out, f, l).(fields := ps) && f.Ask? == requests
    ensures
      var e := HeadersComplete(LineOf(f), keepAlive);
      var version := if v.Unset? then VersionOf(f.minor) else v;
      var opening := if f.Ask? then Asked(f.verb, WithHost(l.told, ps)) else Answered(f.status, f.reason);
      && Tolerated(h, e)
      && Past(Deliver(h, e), requests, version, out + [Began, Notice.Head(version, opening, ps, keepAlive)])
  {
    hide WithHost, Takes;
    var version := if v.Unset? then VersionOf(f.minor) else v;
    var opening := if f.Ask? then Asked(f.verb, WithHost(l.told, ps)) else Answered(f.status, f.reason);
    assert out + [Began] + [Notice.Head(version, opening, ps, keepAlive)]
      == out + [Began, Notice.Head(version, opening, ps, keepAlive)];
  }

  /** A header block, from its first line on. */
  lemma BlockDelivered(requests: bool, v: Version, out: seq<Notice>, r: Message, l: L.Locator, keepAlive: bool)
    requires CleanPairs(Fields(r)) && Lawful(Fields(r), false) && r.first.Ask? == requests
    ensures
      var h, es := Opened(requests, v, out, r.first, l),
        LineEvents(Fields(r)) + [HeadersComplete(LineOf(r.first), keepAlive)];
      && AllTolerated(h, es)
      && Past(DeliverAll(h, es), requests, Known(v, r),
              out + [Began, Notice.Head(Known(v, r), OpeningTold(r, l.told), Fields(r), keepAlive)])
  {
    hide DeliverAll, AllTolerated, LineEvents, Deliver, Tolerated, CleanPairs, Lawful, Takes, WithHost, Past,
      Fields, LineOf;
    var h, ps := Opened(requests, v, out, r.first, l), Fields(r);
    var e := HeadersComplete(LineOf(r.first), keepAlive);
    LawfulTakes(ps, false);
    assert Stored(h) == h && [] + ps == ps;
    LinesDelivered(h, ps);
    var g := DeliverAll(h, LineEvents(ps));
    HeadEndDelivered(g, requests, v, out, r.first, l, ps, keepAlive);
    DeliverOne(g, e);
    OneTolerated(g, e);
    DeliverConcat(h, LineEvents(ps), [e]);
    ToleratedConcat(h, LineEvents(ps), [e]);
  }

  /** A body in pieces, on top of `out`. */
  function WithBody(out: seq<Notice>, body: string): seq<Notice> { if body == "" then out else AddBody(out, body) }

  lemma WithBodyTwice(out: seq<Notice>, s: string, t: string)
    ensures WithBody(WithBody(out, s), t) == WithBody(out, s + t)
  {
    if s == "" {
      assert s + t == t;
    } else if t == "" {
      assert s + t == s;
    } else if out != [] && out[|out| - 1].BodyPart? {
      assert (out[|out| - 1].text + s) + t == out[|out| - 1].text + (s + t);
    }
  }

  lemma ChunkDelivered(h: Held, requests: bool, v: Version, out: seq<Notice>, d: string)
    requires Past(h, requests, v, out) && d != ""
    ensures Past(DeliverAll(h, ChunkEvents(d)), requests, v, WithBody(out, d)) && AllTolerated(h, ChunkEvents(d))
  {
    var e := ChunkEvents(d);
    assert e == [e[0], e[1]] + [e[2]];
    DeliverTwo(h, e[0], e[1]);
    var g := DeliverAll(h, [e[0], e[1]]);
    DeliverOne(g, e[2]);
    OneTolerated(g, e[2]);
    DeliverConcat(h, [e[0], e[1]], [e[2]]);
    ToleratedConcat(h, [e[0], e[1]], [e[2]]);
  }

  lemma {:induction false} ChunksDelivered(h: Held, requests: bool, v: Version, out: seq<Notice>, bodies: seq<string>)
    requires Past(h, requests, v, out)
    ensures Past(DeliverAll(h, ChunksEvents(bodies)), requests, v, WithBody(out, Concat(bodies)))
    ensures AllTolerated(h, ChunksEvents(bodies))
    decreases |bodies|
  {
    hide Past, WithBody, DeliverAll, AllTolerated, ChunkEvents;
    NoneDelivered(h);
    NoBody(out);
    if bodies != [] {
      var d := bodies[0];
      var first := if d == "" then [] else ChunkEvents(d);
      if d != "" { ChunkDelivered(h, requests, v, out, d); }
      ChunksDelivered(DeliverAll(h, first), requests, v, WithBody(out, d), bodies[1..]);
      DeliverConcat(h, first, ChunksEvents(bodies[1..]));
      ToleratedConcat(h, first, ChunksEvents(bodies[1..]));
      WithBodyTwice(out, d, Concat(bodies[1..]));
    }
  }

  lemma NoBody(out: seq<Notice>)
    ensures WithBody(out, "") == out
  {
  }

  lemma BodyAfterHead(out: seq<Notice>, n: Notice, body: string, t: Trailer)
    requires n.Head?
    ensures WithBody(out + [Began, n], body) + BodyTold("", t) == out + ([Began, n] + BodyTold(body, t))
  {
  }

  lemma TrailerDelivered(h: Held, requests: bool, v: Version, out: seq<Notice>, k: string, x: string)
    requires Past(h, requests, v, out)
    ensures
      var es := [Data(Field, k), Data(Value, x)];
      var g := DeliverAll(h, es);
      && AllTolerated(h, es) && g.headersDone && g.requests == requests && g.version == v
      && Handed(g).out == out + [TrailerField(k, x)]
  {
    DeliverTwo(h, Data(Field, k), Data(Value, x));
    assert "" + k == k && "" + x == x;
  }

  lemma LastDelivered(h: Held)
    ensures
      var es := [ChunkComplete(true), MessageComplete];
      AllTolerated(h, es) && DeliverAll(h, es) == Empty(h.requests, h.version, Handed(h).out + [Done])
  {
    DeliverTwo(h, ChunkComplete(true), MessageComplete);
  }

  lemma LastChunkDelivered(h: Held, requests: bool, v: Version, out: seq<Notice>)
    requires Past(h, requests, v, out)
    ensures AllTolerated(h, [ChunkHeader(0, false)]) && Past(DeliverAll(h, [ChunkHeader(0, false)]), requests, v, out)
  {
    DeliverOne(h, ChunkHeader(0, false));
    OneTolerated(h, ChunkHeader(0, false));
  }

  /** The last chunk, the trailer and the end of a chunked message. */
  lemma EndDelivered(h: Held, requests: bool, v: Version, out: seq<Notice>, t: Trailer)
    requires Past(h, requests, v, out)
    ensures
      var es := [ChunkHeader(0, false)] + TrailerEvents(t) + [ChunkComplete(true), MessageComplete];
      DeliverAll(h, es) == Empty(requests, v, out + BodyTold("", t)) && AllTolerated(h, es)
  {
    hide DeliverAll, AllTolerated;
    var first, mid, last := [ChunkHeader(0, false)], TrailerEvents(t), [ChunkComplete(true), MessageComplete];
    LastChunkDelivered(h, requests, v, out);
    var g := DeliverAll(h, first);
    if t.None? {
      NoneDelivered(g);
      assert out + [Done] == out + BodyTold("", t);
    } else {
      TrailerDelivered(g, requests, v, out, t.value.0, Trimmed(t.value.1));
      assert out + [TrailerField(t.value.0, Trimmed(t.value.1))] + [Done] == out + BodyTold("", t);
    }
    LastDelivered(DeliverAll(g, mid));
    DeliverConcat(h, first, mid);
    ToleratedConcat(h, first, mid);
    DeliverConcat(h, first + mid, last);
    ToleratedConcat(h, first + mid, last);
  }

  lemma SizedDelivered(h: Held, requests: bool, v: Version, out: seq<Notice>, body: string)
    requires Past(h, requests, v, out)
    ensures DeliverAll(h, SizedEvents(body)) == Empty(requests, v, WithBody(out, body) + BodyTold("", None))
    ensures AllTolerated(h, SizedEvents(body))
  {
    if body == "" {
      assert [] + [MessageComplete] == [MessageComplete];
      DeliverOne(h, MessageComplete);
      OneTolerated(h, MessageComplete);
    } else {
      assert [Data(Mark.Body, body)] + [MessageComplete] == [Data(Mark.Body, body), MessageComplete];
      DeliverTwo(h, Data(Mark.Body, body), MessageComplete);
    }
  }

  lemma ChunkedDelivered(h: Held, requests: bool, v: Version, out: seq<Notice>, bodies: seq<string>, t: Trailer)
    requires Past(h, requests, v, out)
    ensures DeliverAll(h, ChunkedEvents(bodies, t))
      == Empty(requests, v, WithBody(out, Concat(bodies)) + BodyTold("", t))
    ensures AllTolerated(h, ChunkedEvents(bodies, t))
  {
    hide DeliverAll, AllTolerated, ChunksEvents, Concat, BodyTold, WithBody, Past;
    ChunksDelivered(h, requests, v, out, bodies);
    var end := [ChunkHeader(0, false)] + TrailerEvents(t) + [ChunkComplete(true), MessageComplete];
    EndDelivered(DeliverAll(h, ChunksEvents(bodies)), requests, v, WithBody(out, Concat(bodies)), t);
    DeliverConcat(h, ChunksEvents(bodies), end);
    ToleratedConcat(h, ChunksEvents(bodies), end);
    assert ChunkedEvents(bodies, t) == ChunksEvents(bodies) + end;
  }

  lemma SendableBlock(r: Message)
    requires Sendable(r)
    ensures CleanPairs(Fields(r)) && Lawful(Fields(r), false) && (!r.chunked ==> r.trailer.None?)
  {
  }

  /** The rest of a message tells its receiver all that it must be told, and nothing objects to it. */
  lemma RestDelivered(requests: bool, v: Version, out: seq<Notice>, r: Message, l: L.Locator)
    requires Sendable(r) && r.first.Ask? == requests
    ensures
      var h := Opened(requests, v, out, r.first, l);
      && DeliverAll(h, RestEvents(r)) == Empty(requests, Known(v, r), out + Told(r, Known(v, r), l.told))
      && AllTolerated(h, RestEvents(r))
  {
    SendableBlock(r);
    hide Sendable, DeliverAll, AllTolerated, ChunkedEvents, SizedEvents, Concat, BodyTold, WithBody, Past, Grouped,
      Opened, LineEvents, Persists, HeadMatcher, OpeningTold, CleanPairs, Lawful;
    var h, version, body := Opened(requests, v, out, r.first, l), Known(v, r), Concat(r.bodies);
    var line, n := LineOf(r.first), HeadTold(r, version, l.told);
    var head := LineEvents(Fields(r)) + [HeadersComplete(line, Persists(r.first, Fields(r)))];
    BlockDelivered(requests, v, out, r, l, Persists(r.first, Fields(r)));
    var g := DeliverAll(h, head);
    BodyAfterHead(out, n, body, r.trailer);
    if r.chunked {
      ChunkedDelivered(g, requests, version, out + [Began, n], r.bodies, r.trailer);
      DeliverConcat(h, head, ChunkedEvents(r.bodies, r.trailer));
      ToleratedConcat(h, head, ChunkedEvents(r.bodies, r.trailer));
    } else {
      SizedDelivered(g, requests, version, out + [Began, n], body);
      DeliverConcat(h, head, SizedEvents(body));
      ToleratedConcat(h, head, SizedEvents(body));
    }
  }

  /* ---- read by read ---------------------------------------------------- */

  lemma AddedAppend(tr: seq<Event>, es: seq<Event>)
    ensures Extends(tr, tr + es) && Added(tr, tr + es) == es && NoneGoesOn(tr, tr + es)
  {
  }

  lemma NoTargetsMore(a: seq<Event>, b: seq<Event>)
    requires NoTargets(a) && NoTargets(b)
    ensures NoTargets(a + b)
  {
    hide IsTarget;
  }

  lemma {:induction false} LinesNoTargets(ps: Pairs)
    ensures NoTargets(LineEvents(ps))
    decreases |ps|
  {
    hide NoTargets;
    assert NoTargets([]) by { NothingIsNoTarget(); }
    if ps != [] {
      var two := [Data(Field, ps[0].0), Data(Value, ps[0].1)];
      assert NoTargets(two) by { TwoNoTargets(two); }
      LinesNoTargets(ps[1..]);
      NoTargetsMore(two, LineEvents(ps[1..]));
    }
  }

  lemma NothingIsNoTarget()
    ensures NoTargets([])
  {
  }

  lemma TwoNoTargets(es: seq<Event>)
    requires |es| == 2 && !IsTarget(es[0]) && !IsTarget(es[1])
    ensures NoTargets(es)
  {
  }

  lemma {:induction false} ChunksNoTargets(bodies: seq<string>)
    ensures NoTargets(ChunksEvents(bodies))
    decreases |bodies|
  {
    if bodies != [] {
      ChunksNoTargets(bodies[1..]);
      var first := if bodies[0] == "" then [] else ChunkEvents(bodies[0]);
      assert NoTargets(first);
      hide NoTargets, ChunkEvents;
      NoTargetsMore(first, ChunksEvents(bodies[1..]));
    }
  }

  lemma BodyNoTargets(r: Message)
    ensures NoTargets(ChunkedEvents(r.bodies, r.trailer)) && NoTargets(SizedEvents(Concat(r.bodies)))
  {
    var end := [ChunkHeader(0, false)] + TrailerEvents(r.trailer) + [ChunkComplete(true), MessageComplete];
    assert NoTargets(end) && NoTargets(SizedEvents(Concat(r.bodies)));
    hide NoTargets, ChunksEvents, SizedEvents, Concat, TrailerEvents;
    ChunksNoTargets(r.bodies);
    NoTargetsMore(ChunksEvents(r.bodies), end);
    assert ChunkedEvents(r.bodies, r.trailer) == ChunksEvents(r.bodies) + end;
  }

  lemma RestNoTargets(r: Message)
    requires Sendable(r)
    ensures NoTargets(RestEvents(r))
  {
    SendableBlock(r);
    hide NoTargets, LineEvents, Persists, HeadMatcher, ChunkedEvents, SizedEvents, Concat, Sendable, Grouped,
      LineOf;
    var line := LineOf(r.first);
    var e := HeadersComplete(line, Persists(r.first, Fields(r)));
    HeadIsNoTarget(e);
    LinesNoTargets(Fields(r));
    NoTargetsMore(LineEvents(Fields(r)), [e]);
    BodyNoTargets(r);
    var body := if r.chunked then ChunkedEvents(r.bodies, r.trailer) else SizedEvents(Concat(r.bodies));
    NoTargetsMore(LineEvents(Fields(r)) + [e], body);
  }

  lemma HeadIsNoTarget(e: Event)
    requires e.HeadersComplete?
    ensures NoTargets([e])
  {
  }

  lemma ReplyOpens(v: Version, out: seq<Notice>, f: FirstLine)
    requires f.Reply?
    ensures
      var h, es := Empty(false, v, out), [MessageBegin, LineData(f)];
      && DeliverAll(h, es) == Opened(false, v, out, f, L.UNLOCATED)
      && AllTolerated(h, es) && NoTargets(es)
  {
    var h := Empty(false, v, out);
    DeliverTwo(h, MessageBegin, LineData(f));
    assert "" + f.reason == f.reason;
  }

  /** What the receiver holds when a message has been read in some fragments. */
  ghost predicate IsHeard(requests: bool, v: Version, out: seq<Notice>, m: Machine, r: Message, frags: seq<string>)
    requires Sendable(r)
  {
    var h := Empty(requests, v, out);
    && FragmentsHeard(h, m, frags)
      == Empty(requests, Known(v, r), out + Told(r, Known(v, r), LocationTold(r.first, frags)))
    && FragmentsUnopposed(h, m, frags)
  }

  lemma ToldOfReply(r: Message, version: Version, a: L.Location, b: L.Location)
    requires Sendable(r) && r.first.Reply?
    ensures Told(r, version, a) == Told(r, version, b)
  {
    hide Sendable, Persists, HeadMatcher, Grouped, BodyTold;
  }

  lemma ReplyHeard(v: Version, out: seq<Notice>, m: Machine, r: Message, frags: seq<string>, w: Machine)
    requires Sendable(r) && r.first.Reply? && Flatten(frags) == Wire(r)
    requires Over(m, Wire(r), w) && w.trace == m.trace + WireEvents(r)
    ensures IsHeard(false, v, out, m, r, frags)
  {
    hide Over, Sendable, Wire, WireEvents, RestEvents, DeliverAll, AllTolerated, Opened, Told, Extends, Added,
      NoTargets, FragmentsHeard, FragmentsUnopposed, Empty, NoneGoesOn, LocationTold;
    var h, es := Empty(false, v, out), [MessageBegin, LineData(r.first)];
    EventsSplit(r);
    RestNoTargets(r);
    ReplyOpens(v, out, r.first);
    NoTargetsMore(es, RestEvents(r));
    AddedAppend(m.trace, WireEvents(r));
    PlainReads(h, m, frags, w);
    RestDelivered(false, v, out, r, L.UNLOCATED);
    DeliverConcat(h, es, RestEvents(r));
    ToleratedConcat(h, es, RestEvents(r));
    ToldOfReply(r, Known(v, r), L.UNLOCATED.told, LocationTold(r.first, frags));
  }

  /* ---- requests -------------------------------------------------------- */

  /** The text of a request: the method, the target, the rest. */
  lemma AskText(r: Message) returns (rest: string)
    requires Sendable(r) && r.first.Ask?
    ensures Wire(r) == MethodString(r.first.verb) + [SP] + (TargetOf(r.first) + rest)
    ensures PrintedName(r.first.verb) == MethodString(r.first.verb)
  {
    hide MethodString, U.Printed, Lines, Grouped, UrlRun, ChunkedText, BodiesText, CleanPairs, Lawful, Concat,
      CleanTrailer, Storable;
    var v, t := r.first.verb, TargetOf(r.first);
    var end := [SP] + ("HTTP/1." + [DecimalDigit(r.first.minor)] + CRLF);
    rest := end + ((Lines(Grouped(r.headers)) + CRLF)
      + (if r.chunked then ChunkedText(r.bodies, r.trailer) else BodiesText(false, r.bodies)));
    assert LineText(r.first) == PrintedName(v) + [SP] + (t + end);
    assert Wire(r) == PrintedName(v) + [SP] + (t + rest);
  }

  lemma AskTarget(r: Message)
    requires Sendable(r) && r.first.Ask?
    ensures TargetOf(r.first) != "" && |TargetOf(r.first)| <= L.MAX_TARGET
    ensures !UrlRun(UrlStart(r.first.verb), TargetOf(r.first)).Dead?
  {
    hide UrlRun, U.Printed, Grouped, CleanPairs, Lawful, Concat, CleanTrailer, Storable;
  }

  lemma ThreeParts(all: string, a: string, b: string, c: string)
    requires all == a + (b + c)
    ensures all[..|a|] == a && all[|a|..] == b + c && all[|a|..|a| + |b|] == b && all[|a| + |b|..] == c
    ensures all[|a|..][..|b|] == b && all[|a|..][|b|..] == c
  {
  }

  lemma OverParts(m: Machine, a: string, x: Machine, b: string, y: Machine, c: string, w: Machine)
    requires Over(m, a + (b + c), w) && Over(m, a, x) && Over(x, b, y)
    ensures Over(x, b + c, w) && Over(y, c, w)
  {
    hide Over;
    var x1 := OverPart(m, a, b + c, w);
    OverSame(m, a, x, x1);
    var y1 := OverPart(x, b, c, w);
    OverSame(x, b, y, y1);
  }

  /** The machine in front of the target and behind it. */
  lemma AskSplits(m: Machine, r: Message, w: Machine) returns (x: Machine, y: Machine, rest: string)
    requires m.core == Init(Both, true) && Sendable(r) && r.first.Ask?
    requires Over(m, Wire(r), w)
    ensures
      var name, t := MethodString(r.first.verb) + [SP], TargetOf(r.first);
      && Wire(r) == name + (t + rest) && |name| == |PrintedName(r.first.verb)| + 1
      && Over(m, name, x) && Over(x, t, y) && Over(x, t + rest, w) && Over(y, rest, w)
      && AtTarget(x) && !UrlRun(UrlFrom(x), t).Dead? && |t| <= L.MAX_TARGET
      && x.trace == m.trace + [MessageBegin] && y.trace == m.trace + [MessageBegin, Data(Mark.Url, t)]
  {
    hide Over, Transition, Step, UrlRun, Wire, Sendable, MethodString, PrintedName, TargetOf, UrlStart, AtTarget,
      UrlFrom, Emit, LineOf, InUrl;
    AskTarget(r);
    rest := AskText(r);
    var t := TargetOf(r.first);
    x := MethodOver(m, r.first.verb);
    NameEndsAtTarget(m, r.first.verb, x);
    y := TargetPart(x, t);
    OverParts(m, MethodString(r.first.verb) + [SP], x, t, y, rest, w);
    TargetFollows(m.trace, t);
  }

  lemma PiecesAreTarget(r: Message, frags: seq<string>)
    requires Sendable(r) && r.first.Ask? && Flatten(frags) == Wire(r)
    ensures
      var ps := PiecesOf(r.first, frags);
      && Flatten(ps) == TargetOf(r.first) && |TargetOf(r.first)| <= L.MAX_TARGET
      && forall i :: 0 <= i < |ps| ==> ps[i] != ""
  {
    hide Sendable, Wire, Front, Back, Pieces, UrlRun, U.Printed, PrintedName, MethodString;
    AskTarget(r);
    var rest := AskText(r);
    var t, n := TargetOf(r.first), |PrintedName(r.first.verb)| + 1;
    ThreeParts(Wire(r), MethodString(r.first.verb) + [SP], t, rest);
    FrontAndBack(frags, n);
    FrontAndBack(Back(frags, n), |t|);
    PiecesHold(Front(Back(frags, n), |t|));
  }

  lemma NameEndsAtTarget(m: Machine, v: Method, x: Machine)
    requires x.core == Targeting(v)
    ensures AtTarget(x) && UrlFrom(x) == UrlStart(v)
  {
    hide MethodString;
  }

  lemma TargetFollows(tr: seq<Event>, t: string)
    ensures Emit(tr + [MessageBegin], Data(Mark.Url, t)) == tr + [MessageBegin, Data(Mark.Url, t)]
  {
  }

  lemma BeginHeard(v: Version, out: seq<Notice>, m: Machine, x: Machine)
    requires x.trace == m.trace + [MessageBegin]
    ensures
      var h := Empty(true, v, out);
      && Heard(h, m, x) == Empty(true, v, out + [Began]) && Unopposed(h, m, x)
      && Extends(m.trace, x.trace) && NoTargets(Added(m.trace, x.trace))
  {
    var h := Empty(true, v, out);
    AddedAppend(m.trace, [MessageBegin]);
    DeliverOne(h, MessageBegin);
    OneTolerated(h, MessageBegin);
  }

  lemma RestHeard(v: Version, out: seq<Notice>, r: Message, l: L.Locator, y: Machine, w: Machine)
    requires Sendable(r) && r.first.Ask? && w.trace == y.trace + RestEvents(r)
    ensures
      var h := Empty(true, v, out + [Began]).(locator := l);
      && Heard(h, y, w) == Empty(true, Known(v, r), out + Told(r, Known(v, r), l.told)) && Unopposed(h, y, w)
      && Extends(y.trace, w.trace) && NoTargets(Added(y.trace, w.trace)) && NoneGoesOn(y.trace, w.trace)
  {
    hide Sendable, DeliverAll, AllTolerated, RestEvents, Told, NoTargets, Extends, Added, NoneGoesOn;
    AddedAppend(y.trace, RestEvents(r));
    RestNoTargets(r);
    RestDelivered(true, v, out, r, l);
    assert Opened(true, v, out, r.first, l) == Empty(true, v, out + [Began]).(locator := l);
  }

  lemma AskHeard(v: Version, out: seq<Notice>, m: Machine, r: Message, frags: seq<string>, w: Machine)
    requires m.core == Init(Both, true) && Sendable(r) && r.first.Ask? && Flatten(frags) == Wire(r)
    requires Over(m, Wire(r), w) && w.trace == m.trace + WireEvents(r)
    ensures IsHeard(true, v, out, m, r, frags)
  {
    hide Over, Sendable, Wire, WireEvents, RestEvents, Heard, Unopposed, Told, Extends, Added, NoTargets, Front,
      Back, Pieces, FragmentsHeard, FragmentsUnopposed, UrlRun, UrlFrom, AtTarget, U.Printed, Known, MethodString,
      PrintedName;
    var all, n, t := Wire(r), |PrintedName(r.first.verb)| + 1, TargetOf(r.first);
    var h := Empty(true, v, out);
    EventsSplit(r);
    var x, y, rest := AskSplits(m, r, w);
    ThreeParts(all, MethodString(r.first.verb) + [SP], t, rest);
    assert w.trace == y.trace + RestEvents(r);
    assert m.trace + WireEvents(r) == x.trace + ([LineData(r.first)] + RestEvents(r));
    AddedAppend(x.trace, [LineData(r.first)] + RestEvents(r));
    var back := Back(frags, n);
    var pieces := Front(back, |t|);
    FrontAndBack(frags, n);
    FrontAndBack(back, |t|);
    ReadsSplit(h, m, frags, n, x, w);
    BeginHeard(v, out, m, x);
    PlainReads(h, m, Front(frags, n), x);
    var g := Empty(true, v, out + [Began]);
    var l := L.OnTargets(L.UNLOCATED, Pieces(pieces));
    RestHeard(v, out, r, l, y, w);
    ReadsSplit(g, x, back, |t|, y, w);
    assert g.locator == L.UNLOCATED && "" + t == t;
    TargetReads(g, x, pieces);
    PlainReads(g.(locator := l), y, Back(back, |t|), w);
  }

  /** A message that arrives in any reads tells its receiver exactly this. */
  lemma MessageHeard(requests: bool, v: Version, out: seq<Notice>, m: Machine, r: Message, frags: seq<string>)
    returns (w: Machine)
    requires m.core == Init(Both, true) && Sendable(r) && r.first.Ask? == requests && Flatten(frags) == Wire(r)
    ensures Over(m, Wire(r), w) && Is(w, Init(Both, true), m.trace + WireEvents(r))
    ensures IsHeard(requests, v, out, m, r, frags)
  {
    hide Over, Sendable, Wire, WireEvents, IsHeard;
    w := MessageOver(m, r);
    if requests { AskHeard(v, out, m, r, frags, w); } else { ReplyHeard(v, out, m, r, frags, w); }
  }
}
