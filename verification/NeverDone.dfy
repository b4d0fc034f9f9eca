/**
 A response whose body ends with the connection, read by the decoder of a connection:
 it calls the parser only with octets, so the owner is never told that the response is
 complete.
 */
module NeverDone {
  import opened ParserTypes
  import opened ParserMachine
  import opened ParserWords
  import opened Fragmentation
  import opened HeaderLines
  import opened FirstLines
  import opened Persistence
  import opened HttpEncoder
  import opened RoundTrip
  import opened HttpDecoder
  import opened Additions
  import opened Decoding
  import opened Reads
  import opened Telling
  import opened UntilClose

  /** What is told of such a response, as far as its body has come. */
  function OpenTold(r: Message, version: Version): seq<Notice>
    requires CleanPairs(Fields(r))
  {
    var line := LineOf(r.first);
    [Began, Notice.Head(version, OpeningTold(r, L.NOWHERE), Fields(r), Persists(r.first, Fields(r)))]
    + (if Concat(r.bodies) == "" then [] else [BodyPart(Concat(r.bodies))])
  }

  /** Whatever follows is more body. */
  lemma MoreIsBody(r: Message, s: string)
    requires Unframed(r)
    ensures
      var t := r.(bodies := r.bodies + [s]);
      Unframed(t) && LastText(t) == LastText(r) + s && Concat(t.bodies) == Concat(r.bodies) + s
  {
    hide CleanLine, CleanPairs, Lawful, SaysChunked, SaysLength, Grouped, LineText, Lines, BlockMatcher,
      MayBeSilent, BodiesText, Concat;
    var t := r.(bodies := r.bodies + [s]);
    LineIsPlain(r.first);
    ConcatMore(r.bodies, s);
    PlainBodies(r.bodies);
    PlainBodies(t.bodies);
    assert RoundTrip.Head(t) == RoundTrip.Head(r);
    assert RoundTrip.Head(r) + (Concat(r.bodies) + s) == RoundTrip.Head(r) + Concat(r.bodies) + s;
  }

  lemma OpenNoTargets(r: Message)
    requires Unframed(r)
    ensures NoTargets(OpenEvents(r))
  {
    var line, body := LineOf(r.first), Concat(r.bodies);
    var e := HeadersComplete(line, Persists(r.first, Fields(r)));
    var first, end := [MessageBegin, LineData(r.first)], if body == "" then [] else [Data(Mark.Body, body)];
    assert NoTargets(first) && NoTargets([e]) && NoTargets(end);
    hide NoTargets, LineEvents, Persists, LastMatcher, Concat, Unframed, Fields, LineOf;
    LinesNoTargets(Fields(r));
    NoTargetsMore(first, LineEvents(Fields(r)));
    NoTargetsMore(first + LineEvents(Fields(r)), [e]);
    NoTargetsMore(first + LineEvents(Fields(r)) + [e], end);
  }

  lemma UnframedBlock(r: Message)
    requires Unframed(r)
    ensures CleanPairs(Fields(r)) && Lawful(Fields(r), false) && r.first.Reply?
  {
  }

  lemma BodyIsTold(h: Held, v: Version, out: seq<Notice>, n: Notice, body: string)
    requires Past(h, false, v, out + [Began, n]) && n.Head?
    ensures
      var es := if body == "" then [] else [Data(Mark.Body, body)];
      && AllTolerated(h, es)
      && DeliverAll(h, es).out == out + ([Began, n] + (if body == "" then [] else [BodyPart(body)]))
  {
    if body == "" {
      assert DeliverAll(h, []) == h;
    } else {
      DeliverOne(h, Data(Mark.Body, body));
      OneTolerated(h, Data(Mark.Body, body));
    }
  }

  lemma OpenSplits(r: Message)
    requires Unframed(r)
    ensures
      var line, body := LineOf(r.first), Concat(r.bodies);
      var block := LineEvents(Fields(r)) + [HeadersComplete(line, Persists(r.first, Fields(r)))];
      OpenEvents(r) == [MessageBegin, LineData(r.first)] + (block + if body == "" then [] else [Data(Mark.Body, body)])
  {
    hide Unframed, LineEvents, Persists, LastMatcher, Concat, Fields, LineOf, LineData;
  }

  lemma InTwo(h: Held, a: seq<Event>, b: seq<Event>)
    ensures DeliverAll(h, a + b) == DeliverAll(DeliverAll(h, a), b)
    ensures AllTolerated(h, a + b) <==> AllTolerated(h, a) && AllTolerated(DeliverAll(h, a), b)
  {
    DeliverConcat(h, a, b);
    ToleratedConcat(h, a, b);
  }

  lemma OpenDelivered(v: Version, out: seq<Notice>, r: Message)
    requires Unframed(r)
    ensures
      var h := Empty(false, v, out);
      && CleanPairs(Fields(r))
      && DeliverAll(h, OpenEvents(r)).out == out + OpenTold(r, Known(v, r)) && AllTolerated(h, OpenEvents(r))
  {
    UnframedBlock(r);
    OpenSplits(r);
    hide Unframed, DeliverAll, AllTolerated, LineEvents, Persists, LastMatcher, Concat, Fields, LineOf,
      Opened, Past, Empty, OpeningTold, Known, CleanPairs, Lawful, OpenEvents, LineData;
    var line, body, version := LineOf(r.first), Concat(r.bodies), Known(v, r);
    var keepAlive := Persists(r.first, Fields(r));
    var first, block := [MessageBegin, LineData(r.first)], LineEvents(Fields(r)) + [HeadersComplete(line, keepAlive)];
    var end := if body == "" then [] else [Data(Mark.Body, body)];
    var h, g := Empty(false, v, out), Opened(false, v, out, r.first, L.UNLOCATED);
    ReplyOpens(v, out, r.first);
    BlockDelivered(false, v, out, r, L.UNLOCATED, keepAlive);
    BodyIsTold(DeliverAll(g, block), version, out,
      Notice.Head(version, OpeningTold(r, L.NOWHERE), Fields(r), keepAlive), body);
    InTwo(g, block, end);
    InTwo(h, first, block + end);
  }

  /**
   However such a response and whatever octets follow it are read, and however many
   reads bring nothing: its owner is told the head and the body so far, and no end.
   */
  lemma LastIsNeverDone(v: Version, out: seq<Notice>, m: Machine, r: Message, more: string, frags: seq<string>)
    requires m.core == Init(Both, true) && Unframed(r) && Flatten(frags) == LastText(r) + more
    ensures
      var h, t := Empty(false, v, out), r.(bodies := r.bodies + [more]);
      && FragmentsUnopposed(h, m, frags) && CleanPairs(Fields(t))
      && FragmentsHeard(h, m, frags).out == out + OpenTold(t, Known(v, r))
      && Done !in OpenTold(t, Known(v, r)) && Concat(t.bodies) == Concat(r.bodies) + more
  {
    hide Unframed, LastText, Over, Heard, Unopposed, FragmentsHeard, FragmentsUnopposed, OpenEvents, NoTargets,
      Extends, Added, NoneGoesOn, DeliverAll, AllTolerated, AtEnd, LastEvents, Persists, LastMatcher;
    var h, t := Empty(false, v, out), r.(bodies := r.bodies + [more]);
    MoreIsBody(r, more);
    var w := LastMessageOver(m, t);
    AddedAppend(m.trace, OpenEvents(t));
    OpenNoTargets(t);
    PlainReads(h, m, frags, w);
    OpenDelivered(v, out, t);
    assert Heard(h, m, w) == DeliverAll(h, OpenEvents(t))
      && (Unopposed(h, m, w) <==> AllTolerated(h, OpenEvents(t))) by {
      HeardIsDelivered(h, m, w, OpenEvents(t));
    }
  }

  lemma HeardIsDelivered(h: Held, m: Machine, w: Machine, es: seq<Event>)
    requires w.trace == m.trace + es
    ensures Heard(h, m, w) == DeliverAll(h, es) && (Unopposed(h, m, w) <==> AllTolerated(h, es))
  {
    AddedAppend(m.trace, es);
  }
}
