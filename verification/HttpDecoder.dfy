/**
 The decoder half of `http_codec`: what its callbacks accumulate and what they tell
 its owner.
 */
module HttpDecoder {
  import opened ParserTypes
  import opened HeaderLines
  import opened Numerals
  import U = UrlParser
  import L = Locations

  /** `proto_version`, as far as HTTP/1 goes. */
  datatype Version = Unset | Http10 | Http11

  function VersionOf(minor: nat): Version { if minor == 1 then Http11 else Http10 }

  /** What the message object of the owner is told of the first line; its status only with a reason phrase. */
  datatype Opening = Asked(verb: Method, location: L.Location) | Answered(status: nat, reason: string) | Unanswered

  /** What the codec's owner is told. */
  datatype Notice =
    | Began
    | Head(version: Version, opening: Opening, fields: Pairs, keepAlive: bool)
    | BodyPart(text: string)
    | TrailerField(key: string, value: string)
    | Done

  /**
   The fields of `http_codec::impl`, with the calls of `header` so far and every
   notice given.  `requests` is the type of the owner's message object: a request, or
   a response.
   */
  datatype Held = Held(
    requests: bool, version: Version, key: string, value: string, gotHeader: bool, headersDone: bool, ignore: bool,
    locator: L.Locator, answered: bool, reason: string, fields: Pairs, out: seq<Notice>)

  /** Between messages; the version is kept for the whole connection. */
  function Empty(requests: bool, version: Version, out: seq<Notice>): Held {
    Held(requests, version, "", "", false, false, false, L.UNLOCATED, false, "", [], out)
  }

  /* ---- the message object ---------------------------------------------- */

  /** `::tolower` */
  function ToLower(c: char): char { if 'A' <= c <= 'Z' then (c as int + 0x20) as char else c }

  function LowerCase(s: string): (r: string)
    ensures |r| == |s| && forall i :: 0 <= i < |s| ==> r[i] == ToLower(s[i])
  {
    seq(|s|, i requires 0 <= i < |s| => ToLower(s[i]))
  }

  function SkipSpace(s: string): string
    decreases |s|
  {
    if s != "" && (s[0] == ' ' || 9 <= s[0] as int <= 13) then SkipSpace(s[1..]) else s
  }

  /** `std::stoull` finds a number, and it fits 64 bits; otherwise it throws. */
  predicate Numeric(s: string) {
    var t := SkipSpace(s);
    var u := if t != "" && (t[0] == '+' || t[0] == '-') then t[1..] else t;
    var n := U.DigitsUpTo(u, 0);
    n > 0 && Decimal(u[0..n]) <= U64_MAX
  }

  /** `header` does not throw, which it is declared not to. */
  predicate Takes(key: string, value: string) { LowerCase(key) == "content-length" ==> Numeric(value) }

  /** `header("host")`: a host header replaces the ones before. */
  function HostHeader(fields: Pairs): string
    decreases |fields|
  {
    if fields == [] then ""
    else
      var (k, v) := fields[|fields| - 1];
      if LowerCase(k) == "host" then v else HostHeader(fields[..|fields| - 1])
  }

  function ColonAt(s: string): nat
    decreases |s|
  {
    if s == "" || s[0] == ':' then 0 else 1 + ColonAt(s[1..])
  }

  /** A target without a host gets it from the header. */
  function WithHost(l: L.Location, fields: Pairs): L.Location {
    if l.host != "" then l
    else
      var host := HostHeader(fields);
      var i := ColonAt(host);
      if i >= |host| then l.(host := host) else l.(host := host[..i], port := host[i + 1..])
  }

  /* ---- the callbacks --------------------------------------------------- */

  /** Pieces of one body are told apart only by where the buffers were cut. */
  function AddBody(out: seq<Notice>, s: string): seq<Notice> {
    if out != [] && out[|out| - 1].BodyPart? then out[..|out| - 1] + [BodyPart(out[|out| - 1].text + s)]
    else out + [BodyPart(s)]
  }

  function Cleared(h: Held): Held { h.(gotHeader := false, key := "", value := "") }

  /** `process_current_header` */
  function Stored(h: Held): Held {
    if h.gotHeader then Cleared(h).(fields := h.fields + [(h.key, h.value)]) else h
  }

  /** A pending trailer is handed over. */
  function Handed(h: Held): Held {
    if h.gotHeader then Cleared(h).(out := h.out + [TrailerField(h.key, h.value)]) else h
  }

  function OpeningOf(h: Held, line: StartLine): Opening {
    if h.requests then Asked(line.verb, WithHost(h.locator.told, h.fields))
    else if h.answered then Answered(line.status, h.reason) else Unanswered
  }

  function DeliverData(h: Held, k: Mark, s: string): Held {
    match k
    case Field => var g := if h.headersDone then Handed(h) else Stored(h); g.(key := g.key + s)
    case Value => h.(gotHeader := true, value := h.value + s)
    case Url => h.(locator := L.OnTarget(h.locator, s))
    case Status => h.(answered := true, reason := h.reason + s)
    case Body => if h.ignore then h else h.(out := AddBody(h.out, s))
  }

  /** The version of the first message on a connection is told for all of them. */
  function Deliver(h: Held, e: Event): Held {
    match e
    case Data(k, s) => DeliverData(h, k, s)
    case MessageBegin => h.(fields := [], out := h.out + [Began])
    case HeadersComplete(line, keepAlive) =>
      var g := Stored(h).(version := if h.version.Unset? then VersionOf(line.minor) else h.version);
      g.(headersDone := true, out := g.out + [Head(g.version, OpeningOf(g, line), g.fields, keepAlive)])
    case ChunkHeader(_, final) => h.(ignore := h.ignore || final)
    case ChunkComplete(final) => h.(ignore := h.ignore || final)
    case MessageComplete => Empty(h.requests, h.version, Handed(h).out + [Done])
  }

  function DeliverAll(h: Held, tr: seq<Event>): Held
    decreases |tr|
  {
    if tr == [] then h else Deliver(DeliverAll(h, tr[..|tr| - 1]), tr[|tr| - 1])
  }

  lemma FieldSplits(h: Held, s: string, t: string)
    ensures DeliverData(DeliverData(h, Field, s), Field, t) == DeliverData(h, Field, s + t)
  {
    var g := if h.headersDone then Handed(h) else Stored(h);
    assert (g.key + s) + t == g.key + (s + t);
  }

  lemma BodySplits(h: Held, s: string, t: string)
    ensures DeliverData(DeliverData(h, Mark.Body, s), Mark.Body, t) == DeliverData(h, Mark.Body, s + t)
  {
    AddedBodies(h.out, s, t);
    hide AddBody;
  }

  lemma AddedBodies(out: seq<Notice>, s: string, t: string)
    ensures AddBody(AddBody(out, s), t) == AddBody(out, s + t)
  {
    if out != [] && out[|out| - 1].BodyPart? {
      var b := out[|out| - 1].text;
      assert (b + s) + t == b + (s + t);
    }
    var r := AddBody(out, s);
    assert r != [] && r[|r| - 1].BodyPart?;
  }

  /**
   A data callback may be split anywhere, unless it is for a target: what is
   accumulated does not show it.
   */
  lemma SplitsAreInvisible(h: Held, k: Mark, s: string, t: string)
    requires !k.Url?
    ensures Deliver(Deliver(h, Data(k, s)), Data(k, t)) == Deliver(h, Data(k, s + t))
  {
    match k {
      case Field => FieldSplits(h, s, t);
      case Body => BodySplits(h, s, t);
      case Value => assert (h.value + s) + t == h.value + (s + t);
      case Status => assert (h.reason + s) + t == h.reason + (s + t);
    }
    hide Stored, Handed, AddBody;
  }

  lemma {:induction false} DeliverConcat(h: Held, a: seq<Event>, b: seq<Event>)
    ensures DeliverAll(h, a + b) == DeliverAll(DeliverAll(h, a), b)
    decreases |b|
  {
    hide Deliver;
    if b == [] {
      assert a + b == a;
    } else {
      var n := |b| - 1;
      assert (a + b)[..|a| + n] == a + b[..n];
      DeliverConcat(h, a, b[..n]);
    }
  }

  lemma DeliverOne(h: Held, e: Event)
    ensures DeliverAll(h, [e]) == Deliver(h, e)
  {
    hide Deliver;
    assert [e][..0] == [] && DeliverAll(h, []) == h;
  }

  /* ---- what the callbacks insist on ------------------------------------ */

  /**
   No assertion fails, nothing is thrown, the message object is of the type that the
   callback takes it for, and no error is returned to the parser.
   */
  predicate Tolerated(h: Held, e: Event) {
    match e
    case Data(k, s) =>
      && (k.Url? ==> h.requests && |h.locator.target + s| <= L.MAX_TARGET)
      && (k.Status? ==> !h.requests)
      && (k.Field? && !h.headersDone && h.gotHeader ==> Takes(h.key, h.value))
    case HeadersComplete(line, _) => line.major == 1 && (h.gotHeader ==> Takes(h.key, h.value))
    case _ => true
  }

  predicate AllTolerated(h: Held, tr: seq<Event>)
    decreases |tr|
  {
    tr == [] || (AllTolerated(h, tr[..|tr| - 1]) && Tolerated(DeliverAll(h, tr[..|tr| - 1]), tr[|tr| - 1]))
  }

  lemma {:induction false} ToleratedAt(h: Held, tr: seq<Event>, i: nat)
    requires i < |tr|
    ensures AllTolerated(h, tr) ==> Tolerated(DeliverAll(h, tr[..i]), tr[i])
    decreases |tr|
  {
    hide Tolerated, DeliverAll;
    var n := |tr| - 1;
    if i < n {
      ToleratedAt(h, tr[..n], i);
      assert tr[..n][..i] == tr[..i];
    }
  }

  lemma {:induction false} ToleratedConcat(h: Held, a: seq<Event>, b: seq<Event>)
    ensures AllTolerated(h, a + b) <==> AllTolerated(h, a) && AllTolerated(DeliverAll(h, a), b)
    decreases |b|
  {
    hide Tolerated, DeliverAll;
    if b == [] {
      assert a + b == a;
    } else {
      var n := |b| - 1;
      assert (a + b)[..|a| + n] == a + b[..n] && (a + b)[|a| + n] == b[n];
      ToleratedConcat(h, a, b[..n]);
      DeliverConcat(h, a, b[..n]);
    }
  }

  lemma OneTolerated(h: Held, e: Event)
    ensures AllTolerated(h, [e]) <==> Tolerated(h, e)
  {
    assert [e][..0] == [];
  }

  /** Nor does a split matter here. */
  lemma SplitsAreTolerated(h: Held, k: Mark, s: string, t: string)
    requires !k.Url?
    ensures Tolerated(h, Data(k, s + t)) <==> Tolerated(h, Data(k, s)) && Tolerated(Deliver(h, Data(k, s)), Data(k, t))
  {
    hide Takes;
  }

  /** After a data callback, one more without octets changes nothing. */
  lemma EmptyIsNothing(h: Held, k: Mark, s: string)
    requires Tolerated(h, Data(k, s))
    ensures
      var g := Deliver(h, Data(k, s));
      Tolerated(g, Data(k, "")) && Deliver(g, Data(k, "")) == g
  {
    hide Takes;
    assert s + "" == s;
    if k.Url? {
      assert h.locator.target + s + "" == h.locator.target + s;
      L.EmptyFragment(L.OnTarget(h.locator, s));
    } else {
      SplitsAreInvisible(h, k, s, "");
      SplitsAreTolerated(h, k, s, "");
    }
  }

  /** The callbacks of `http_codec::impl`. */
  class Impl {
    /** Whether the owner's message object is a request. */
    const requests: bool
    var version: Version
    var key: string
    var value: string
    var gotHeader: bool
    var headersDone: bool
    var ignore: bool
    /** `_urline`, `_url.field_data` and `_connected`, and what the owner was told last. */
    var target: string
    var ranges: U.Fields
    var connected: bool
    var told: L.Location
    var answered: bool
    var reason: string
    /** The header fields given to the message under construction. */
    var fields: Pairs
    /** Every call back into the codec's owner. */
    var out: seq<Notice>

    function View(): Held
      reads this
    {
      Held(requests, version, key, value, gotHeader, headersDone, ignore, L.Locator(target, ranges, connected, told),
           answered, reason, fields, out)
    }

    constructor (requests: bool)
      ensures View() == Empty(requests, Unset, [])
    {
      this.requests := requests;
      version, key, value, gotHeader, headersDone, ignore := Unset, "", "", false, false, false;
      target, ranges, connected, told := "", map[], false, L.NOWHERE;
      answered, reason, fields, out := false, "", [], [];
    }

    method ForgetTarget()
      modifies this`target, this`ranges, this`connected, this`told
      ensures View().locator == L.UNLOCATED
    {
      target, ranges, connected, told := "", map[], false, L.NOWHERE;
    }

    /** `reset`, which leaves the version alone. */
    method Reset()
      modifies this
      ensures View() == Empty(requests, old(version), old(out))
    {
      fields := [];
      ignore, gotHeader, headersDone := false, false, false;
      answered, reason, value, key := false, "", "", "";
      ForgetTarget();
    }

    method ProcessCurrentHeader()
      modifies this
      ensures View() == Stored(old(View()))
    {
      if !gotHeader { return; }
      fields := fields + [(key, value)];
      gotHeader := false;
      key, value := "", "";
    }

    method OnMessageBegin()
      modifies this
      ensures View() == Deliver(old(View()), MessageBegin)
    {
      fields := [];
      out := out + [Began];
    }

    /** The fragment is split on its own; the texts come from the whole target read so far. */
    method OnUrl(s: string) returns (error: bool)
      modifies this
      ensures View() == Deliver(old(View()), Data(Mark.Url, s)) && error == (|target| > L.MAX_TARGET)
    {
      target := target + s;
      if |target| > L.MAX_TARGET { return true; }
      var url, written := U.SplitUrl(s, connected);
      ranges := ranges + written;
      if url.Some? { told := L.Texts(target, ranges); }
      connected := true;
      error := false;
    }

    method OnStatus(s: string)
      modifies this
      ensures View() == Deliver(old(View()), Data(Mark.Status, s))
    {
      answered, reason := true, reason + s;
    }

    /** `on_header_field` and `on_trailer_field`. */
    method OnField(s: string)
      modifies this
      ensures View() == Deliver(old(View()), Data(Field, s))
    {
      if !headersDone {
        ProcessCurrentHeader();
      } else if gotHeader {
        out := out + [TrailerField(key, value)];
        gotHeader := false;
        key, value := "", "";
      }
      key := key + s;
    }

    /** `on_header_value` and `on_trailer_value`. */
    method OnValue(s: string)
      modifies this
      ensures View() == Deliver(old(View()), Data(Value, s))
    {
      gotHeader := true;
      value := value + s;
    }

    /** The version is set once; the assertion of the source is that only HTTP/1 is spoken here. */
    method OnHeadersComplete(line: StartLine, keepAlive: bool)
      requires line.major == 1
      modifies this
      ensures View() == Deliver(old(View()), HeadersComplete(line, keepAlive))
    {
      if version == Unset { version := VersionOf(line.minor); }
      ProcessCurrentHeader();
      var opening := OpeningOf(View(), line);
      out := out + [Head(version, opening, fields, keepAlive)];
      headersDone := true;
    }

    method OnBody(s: string)
      modifies this
      ensures View() == Deliver(old(View()), Data(Mark.Body, s))
    {
      if !ignore {
        if out != [] && out[|out| - 1].BodyPart? {
          out := out[|out| - 1 := BodyPart(out[|out| - 1].text + s)];
        } else {
          out := out + [BodyPart(s)];
        }
      }
    }

    method OnChunkHeader(length: nat, final: bool)
      modifies this
      ensures View() == Deliver(old(View()), ChunkHeader(length, final))
    {
      if final { ignore := true; }
    }

    method OnChunkComplete(final: bool)
      modifies this
      ensures View() == Deliver(old(View()), ChunkComplete(final))
    {
      if final { ignore := true; }
    }

    method OnMessageComplete()
      modifies this
      ensures View() == Deliver(old(View()), MessageComplete)
    {
      if gotHeader {
        out := out + [TrailerField(key, value)];
        gotHeader := false;
        key, value := "", "";
      }
      out := out + [Done];
      Reset();
    }

    method HandleData(k: Mark, s: string)
      requires Tolerated(View(), Data(k, s))
      modifies this
      ensures View() == Deliver(old(View()), Data(k, s))
    {
      hide L.OnTarget, Takes;
      match k
      case Field => OnField(s);
      case Value => OnValue(s);
      case Url =>
        var error := OnUrl(s);
        assert !error by { TargetHeld(old(View()), s); }
      case Status => OnStatus(s);
      case Body => OnBody(s);
    }

    /** One callback, unless something objects to it. */
    method Handle(e: Event) returns (fine: bool)
      modifies this
      ensures fine <==> Tolerated(old(View()), e)
      ensures fine ==> View() == Deliver(old(View()), e)
    {
      hide Deliver, Tolerated;
      fine := Tolerated(View(), e);
      if fine {
        match e
        case Data(k, s) => HandleData(k, s);
        case MessageBegin => OnMessageBegin();
        case HeadersComplete(line, keepAlive) =>
          MajorIsOne(View(), line, keepAlive);
          OnHeadersComplete(line, keepAlive);
        case ChunkHeader(length, final) => OnChunkHeader(length, final);
        case ChunkComplete(final) => OnChunkComplete(final);
        case MessageComplete => OnMessageComplete();
      }
    }

    /** The callbacks of one call of the parser. */
    method HandleAll(tr: seq<Event>) returns (fine: bool)
      modifies this
      ensures fine <==> AllTolerated(old(View()), tr)
      ensures fine ==> View() == DeliverAll(old(View()), tr)
    {
      hide Deliver, Tolerated;
      var i := 0;
      assert tr[..0] == [];
      while i < |tr|
        invariant i <= |tr| && View() == DeliverAll(old(View()), tr[..i]) && AllTolerated(old(View()), tr[..i])
      {
        ghost var next := tr[..i + 1];
        assert next[..i] == tr[..i] && next[i] == tr[i];
        ToleratedAt(old(View()), tr, i);
        fine := Handle(tr[i]);
        if !fine { return; }
        i := i + 1;
      }
      assert tr[..i] == tr;
      fine := true;
    }
  }

  lemma TargetHeld(h: Held, s: string)
    ensures Deliver(h, Data(Mark.Url, s)).locator.target == h.locator.target + s
  {
    hide U.Written, U.ParseUrl, L.Texts;
  }

  lemma MajorIsOne(h: Held, line: StartLine, keepAlive: bool)
    requires Tolerated(h, HeadersComplete(line, keepAlive))
    ensures line.major == 1
  {
  }
}
