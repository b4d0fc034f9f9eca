/**
 Targets of a proxy request and of a CONNECT: the request line that holds them is read
 whole, and they are split into exactly the parts that they are made of.
 */
module AbsoluteTargets {
  import opened Ascii
  import opened Numerals
  import opened Substrings
  import opened ParserTypes
  import opened ParserStep
  import opened ParserMachine
  import opened ParserWords
  import opened UrlParser
  import opened AbsoluteForm
  import opened AbsoluteServer
  import L = Locations
  import R = RequestLine

  function OrNone(s: Option<string>): string { if s.Some? then s.value else "" }

  /* ---- the fields ------------------------------------------------------- */

  /** Both loops together. */
  function FieldsOf(a: Absolute): Fields {
    ServerFieldsOf(Outer(a)[Host := Range(ServerAt(a), 0)], ServerAt(a), a.server)
  }

  /** A field that is set stands for its text, and one that is not for none. */
  predicate Shows(fs: Fields, f: UrlField, p: nat, x: string) {
    if f in fs then fs[f] == Range(p, |x|) else x == ""
  }

  lemma SubstrShows(s: string, fs: Fields, f: UrlField, p: nat, x: string)
    requires Shows(fs, f, p, x) && Stands(s, p, x)
    ensures L.Substr(s, fs, f) == x
  {
  }

  lemma OuterShows(a: Absolute)
    ensures
      var fs := Outer(a);
      && Shows(fs, Schema, 0, a.schema) && Shows(fs, Path, PathAt(a), a.path)
      && Shows(fs, Query, QueryAt(a) + 1, a.query) && Shows(fs, Fragment, FragmentAt(a) + 1, a.fragment)
      && Host in fs && fs[Host] == Range(ServerAt(a), |ServerText(a.server)|)
      && Userinfo !in fs && Port !in fs && Schema in fs
  {
    hide ServerText, Tail;
  }

  lemma ServerShows(fs: Fields, p: nat, s: Server)
    requires Userinfo !in fs && Port !in fs
    ensures
      var gs := ServerFieldsOf(fs, p, s);
      && SameOutside(fs, gs) && Host in gs && Shows(gs, Userinfo, p, OrNone(s.userinfo))
      && Shows(gs, Host, HostFrom(s.host, HostAt(p, s)), HostOf(s.host))
      && Shows(gs, Port, PortAt(p, s) + 1, OrNone(s.port)) && (Port in gs <==> s.port.Some?)
      && (Userinfo in gs <==> OrNone(s.userinfo) != "")
  {
    hide HostOf, HostPart, UserPart, HostFrom;
  }

  lemma AllShow(a: Absolute)
    ensures
      var fs, k := FieldsOf(a), HostAt(ServerAt(a), a.server);
      && Shows(fs, Schema, 0, a.schema) && Shows(fs, Path, PathAt(a), a.path)
      && Shows(fs, Query, QueryAt(a) + 1, a.query) && Shows(fs, Fragment, FragmentAt(a) + 1, a.fragment)
      && Shows(fs, Userinfo, ServerAt(a), OrNone(a.server.userinfo))
      && Shows(fs, Host, HostFrom(a.server.host, k), HostOf(a.server.host))
      && Shows(fs, Port, PortAt(ServerAt(a), a.server) + 1, OrNone(a.server.port))
      && (Port in fs <==> a.server.port.Some?)
  {
    OuterShows(a);
    hide Outer, ServerFieldsOf, PathAt, QueryAt, FragmentAt, PortAt, HostFrom, HostOf, HostAt;
    ServerShows(Outer(a)[Host := Range(ServerAt(a), 0)], ServerAt(a), a.server);
  }

  lemma TailStands(buf: string, p: nat, mark: char, s: string)
    requires Stands(buf, p, Tail(mark, s))
    ensures s != "" ==> Stands(buf, p + 1, s)
  {
    if s != "" { StandParts(buf, p, [mark], s); }
  }

  lemma ServerStand(buf: string, p: nat, s: Server)
    requires Stands(buf, p, ServerText(s)) && IsServer(s)
    ensures s.userinfo.Some? ==> Stands(buf, p, s.userinfo.value)
    ensures Stands(buf, HostFrom(s.host, HostAt(p, s)), HostOf(s.host))
    ensures s.port.Some? ==>
      Stands(buf, PortAt(p, s) + 1, s.port.value) && PortAt(p, s) + 1 + |s.port.value| == p + |ServerText(s)|
  {
    ServerPartsStand(buf, p, s);
    ServerMeans(s);
    hide Stands, ServerText, IsServer, HostPart, IsHostText;
    HostStands(buf, HostAt(p, s), s.host);
  }

  lemma SubstrServer(buf: string, fs: Fields, p: nat, s: Server)
    requires Stands(buf, p, ServerText(s)) && IsServer(s) && Shows(fs, Userinfo, p, OrNone(s.userinfo))
    requires Shows(fs, Host, HostFrom(s.host, HostAt(p, s)), HostOf(s.host))
    requires Shows(fs, Port, PortAt(p, s) + 1, OrNone(s.port)) && (Port in fs <==> s.port.Some?)
    ensures L.Substr(buf, fs, Userinfo) == OrNone(s.userinfo) && L.Substr(buf, fs, Host) == HostOf(s.host)
    ensures L.Substr(buf, fs, Port) == OrNone(s.port)
  {
    ServerStand(buf, p, s);
    if s.userinfo.None? { assert OrNone(s.userinfo) == ""; }
    if s.port.None? { assert OrNone(s.port) == ""; }
    hide Stands, ServerText, IsServer, HostPart, IsHostText, L.Substr, HostFrom, HostOf, HostAt, PortAt;
    if s.userinfo.Some? { SubstrShows(buf, fs, Userinfo, p, s.userinfo.value); }
    else { NoSubstr(buf, fs, Userinfo, p); }
    SubstrShows(buf, fs, Host, HostFrom(s.host, HostAt(p, s)), HostOf(s.host));
    if s.port.Some? { SubstrShows(buf, fs, Port, PortAt(p, s) + 1, s.port.value); }
    else { NoSubstr(buf, fs, Port, PortAt(p, s) + 1); }
  }

  lemma NoSubstr(buf: string, fs: Fields, f: UrlField, p: nat)
    requires Shows(fs, f, p, "")
    ensures L.Substr(buf, fs, f) == ""
  {
  }

  lemma SubstrTail(buf: string, fs: Fields, f: UrlField, p: nat, mark: char, x: string)
    requires Shows(fs, f, p + 1, x) && Stands(buf, p, Tail(mark, x))
    ensures L.Substr(buf, fs, f) == x
  {
    TailStands(buf, p, mark, x);
    hide Stands, Tail, L.Substr;
    if x == "" { NoSubstr(buf, fs, f, p + 1); } else { SubstrShows(buf, fs, f, p + 1, x); }
  }

  /** The parts of the target, as they are told. */
  function Parts(a: Absolute): L.Location {
    L.Location(a.schema, HostOf(a.server.host), OrNone(a.server.port), a.path, a.query, a.fragment,
               OrNone(a.server.userinfo))
  }

  lemma TextsAreParts(a: Absolute)
    requires IsAbsolute(a)
    ensures L.Texts(TargetText(a), FieldsOf(a)) == Parts(a)
  {
    PartsStand(a);
    AbsoluteMeans(a);
    AllShow(a);
    SchemaStands(TargetText(a), a.schema);
    hide Stands, TargetText, FieldsOf, Shows, L.Substr, IsAbsolute, Tail, IsTail, AllOf, ServerText, IsServer, HostOf,
      HostFrom, HostAt, PortAt, OrNone;
    SubstrShows(TargetText(a), FieldsOf(a), Schema, 0, a.schema);
    SubstrServer(TargetText(a), FieldsOf(a), ServerAt(a), a.server);
    SubstrShows(TargetText(a), FieldsOf(a), Path, PathAt(a), a.path);
    SubstrTail(TargetText(a), FieldsOf(a), Query, QueryAt(a), '?', a.query);
    SubstrTail(TargetText(a), FieldsOf(a), Fragment, FragmentAt(a), '#', a.fragment);
  }

  /* ---- the split --------------------------------------------------------- */

  /** The server part is followed by a slash, a question mark or nothing. */
  lemma NoDigitBehind(a: Absolute)
    requires IsAbsolute(a)
    ensures PathAt(a) <= |TargetText(a)| && (PathAt(a) < |TargetText(a)| ==> !IsNum(TargetText(a)[PathAt(a)]))
  {
    PartsStand(a);
    AbsoluteMeans(a);
    var buf := TargetText(a);
    StandAt(buf, PathAt(a), a.path);
    StandAt(buf, QueryAt(a), Tail('?', a.query));
    hide TargetText, ServerText, IsAbsolute, AllOf, IsTail, IsServer;
  }

  lemma DigitsStand(buf: string, k: nat, x: string, end: nat)
    requires Stands(buf, k, x) && IsDigits(x) && end == k + |x| && (end < |buf| ==> !IsNum(buf[end]))
    ensures k <= |buf| && DigitsUpTo(buf, k) == end && buf[k..end] == x
  {
    DigitsStop(buf, k, end);
  }

  /** What the digits of the port amount to. */
  predicate PortIs(buf: string, fs: Fields, s: Server) {
    && (s.port.Some? ==> IsDigits(s.port.value)) && (Port in fs <==> s.port.Some?)
    && (s.port.Some? ==>
          var k := fs[Port].off;
          k <= |buf| && buf[k..DigitsUpTo(buf, k)] == s.port.value && Decimal(s.port.value) <= 0xFFFF)
  }

  lemma PortValue(buf: string, fs: Fields, p: nat, s: Server, end: nat)
    requires Stands(buf, p, ServerText(s)) && IsServer(s) && end == p + |ServerText(s)|
    requires end < |buf| ==> !IsNum(buf[end])
    requires Shows(fs, Port, PortAt(p, s) + 1, OrNone(s.port)) && (Port in fs <==> s.port.Some?)
    ensures PortIs(buf, fs, s)
  {
    ServerStand(buf, p, s);
    ServerMeans(s);
    if s.port.Some? { ShownAt(fs, PortAt(p, s) + 1, s.port.value); }
    hide *;
    if s.port.Some? {
      DigitsStand(buf, PortAt(p, s) + 1, s.port.value, end);
      PortIsSo(buf, fs, s, PortAt(p, s) + 1, end);
    } else {
      NoPort(buf, fs, s);
    }
  }

  lemma ShownAt(fs: Fields, k: nat, x: string)
    requires Port in fs && Shows(fs, Port, k, x)
    ensures fs[Port].off == k
  {
  }

  lemma NoPort(buf: string, fs: Fields, s: Server)
    requires s.port.None? && Port !in fs
    ensures PortIs(buf, fs, s)
  {
  }

  lemma PortIsSo(buf: string, fs: Fields, s: Server, k: nat, end: nat)
    requires s.port.Some? && Port in fs && fs[Port].off == k <= end <= |buf| && DigitsUpTo(buf, k) == end
    requires IsDigits(s.port.value) && Decimal(s.port.value) <= 0xFFFF && buf[k..end] == s.port.value
    ensures PortIs(buf, fs, s)
  {
    hide DigitsUpTo, IsDigits, Decimal;
  }

  /** `http_parser_parse_url` once both loops have run. */
  lemma ParsedFields(buf: string, isConnect: bool, fs: Fields, gs: Fields, s: Server)
    requires
      var r := Split(UrlParser.Start(isConnect), buf, 0);
      r.Some? && r.value.fields == fs && r.value.foundAt == s.userinfo.Some?
    requires Host in fs && End(fs[Host]) <= |buf| && ParseHost(buf, fs, s.userinfo.Some?) == Some(gs)
    requires PortIs(buf, gs, s)
    ensures
      ParseUrl(buf, isConnect)
      == if isConnect && gs.Keys != {Host, Port} then None
         else Some(Url.Url(gs, if s.port.Some? then Decimal(s.port.value) else 0))
  {
    hide Split, ParseHost, Decimal, DigitsUpTo, IsDigits;
  }

  lemma ServerParsed(a: Absolute)
    requires IsAbsolute(a) && |TargetText(a)| <= 0xFFFF
    ensures
      && Host in Outer(a) && End(Outer(a)[Host]) <= |TargetText(a)|
      && ParseHost(TargetText(a), Outer(a), a.server.userinfo.Some?) == Some(FieldsOf(a))
  {
    PartsStand(a);
    AbsoluteMeans(a);
    OuterShows(a);
    hide ParseHost, Outer, TargetText, ServerText, Stands, IsServer, IsAbsolute, ServerFieldsOf;
    ParseHostMeans(TargetText(a), Outer(a), ServerAt(a), a.server);
  }

  /** The number of a port, 0 without one. */
  function PortNumber(s: Server): nat
    requires IsServer(s)
  {
    if s.port.Some? then Decimal(s.port.value) else 0
  }

  /**
   A target with a scheme and a server is accepted, and what the entries stand for are
   exactly the texts that it is made of.
   */
  lemma AbsoluteSplits(a: Absolute)
    requires IsAbsolute(a) && |TargetText(a)| <= 0xFFFF
    ensures
      var r := ParseUrl(TargetText(a), false);
      r.Some? && L.Texts(TargetText(a), r.value.fields) == Parts(a) && r.value.port == PortNumber(a.server)
  {
    PartsStand(a);
    AbsoluteMeans(a);
    AllShow(a);
    ServerParsed(a);
    NoDigitBehind(a);
    OuterSplits(a);
    TextsAreParts(a);
    PathIsEnd(a);
    hide *;
    PortValue(TargetText(a), FieldsOf(a), ServerAt(a), a.server, PathAt(a));
    ParsedFields(TargetText(a), false, Outer(a), FieldsOf(a), a.server);
    NumberMeans(a.server);
  }

  lemma PathIsEnd(a: Absolute)
    ensures PathAt(a) == ServerAt(a) + |ServerText(a.server)|
  {
  }

  lemma NumberMeans(s: Server)
    requires IsServer(s)
    ensures s.port.Some? ==> IsDigits(s.port.value)
    ensures PortNumber(s) == if s.port.Some? then Decimal(s.port.value) else 0
  {
    hide IsDigits, Decimal;
  }

  /** A request line with such a target is read whole. */
  lemma AbsoluteLineOver(m: Machine, v: Method, a: Absolute, minor: nat) returns (w: Machine)
    requires m.core == Init(Both, true) && minor < 10 && !v.CONNECT?
    requires IsAbsolute(a) && |TargetText(a)| <= L.MAX_TARGET
    ensures Over(m, R.RequestText(v, TargetText(a), minor), w)
    ensures Is(w, R.AfterRequest(v, minor), m.trace + [MessageBegin, Data(Mark.Url, TargetText(a))])
  {
    AbsoluteSplits(a);
    AbsoluteIsText(a);
    hide *;
    R.SplitTargetsAreClean(v, TargetText(a));
    w := R.RequestLineOver(m, v, TargetText(a), minor);
  }

  lemma AbsoluteIsText(a: Absolute)
    ensures TargetText(a) != ""
  {
  }

  lemma FirstTold(s: string)
    requires |s| <= L.MAX_TARGET && ParseUrl(s, false).Some?
    ensures L.OnTarget(L.UNLOCATED, s).told == L.Texts(s, ParseUrl(s, false).value.fields)
  {
    assert "" + s == s;
    WrittenIsFields(s, false);
    hide ParseUrl, Written, L.Texts;
    var fs := ParseUrl(s, false).value.fields;
    assert map[] + fs == fs;
  }

  /** The owner of a codec is told these parts when the target arrives in one fragment. */
  lemma AbsoluteTold(a: Absolute)
    requires IsAbsolute(a) && |TargetText(a)| <= L.MAX_TARGET
    ensures L.OnTarget(L.UNLOCATED, TargetText(a)).told == Parts(a)
  {
    AbsoluteSplits(a);
    hide *;
    FirstTold(TargetText(a));
  }

  /* ---- the target of CONNECT ----------------------------------------------- */

  lemma ServerIsText(s: Server)
    requires IsServer(s)
    ensures ServerText(s) != "" && Stands(ServerText(s), 0, ServerText(s))
  {
    HostIsServer(s);
    hide HostAndPort, IsServer;
  }

  lemma AuthorityCursor(s: Server)
    requires IsServer(s) && |ServerText(s)| <= 0xFFFF
    ensures
      var n := |ServerText(s)|;
      Split(UrlParser.Start(true), ServerText(s), 0)
      == Some(Cursor(ReqServer, Some(Host), map[Host := Range(0, n)], s.userinfo.Some?))
  {
    ServerIsText(s);
    var n := |ServerText(s)|;
    var c := In(map[], Host, 0, n, ReqServer, s.userinfo.Some?);
    assert c == Cursor(ReqServer, Some(Host), map[Host := Range(0, n)], s.userinfo.Some?);
    hide Split, ServerText, IsServer, Stands, In;
    ServerSplits(ServerText(s), UrlParser.Start(true), 0, s, n);
    SplitEnds(c, ServerText(s));
  }

  /**
   A server alone is accepted as the target of a CONNECT if and only if it has a port
   and no user information, and its entries stand for its host and its port.
   */
  lemma AuthoritySplits(s: Server)
    requires IsServer(s) && |ServerText(s)| <= 0xFFFF
    ensures
      var r := ParseUrl(ServerText(s), true);
      && (r.Some? <==> s.port.Some? && OrNone(s.userinfo) == "")
      && (r.Some? ==>
            && L.Texts(ServerText(s), r.value.fields) == L.NOWHERE.(host := HostOf(s.host), port := OrNone(s.port))
            && r.value.port == PortNumber(s))
  {
    ServerIsText(s);
    AuthorityCursor(s);
    var buf, n := ServerText(s), |ServerText(s)|;
    var fs := map[Host := Range(0, n)];
    var gs := ServerFieldsOf(fs[Host := Range(0, 0)], 0, s);
    ServerShows(fs[Host := Range(0, 0)], 0, s);
    hide Split, ServerText, IsServer, Stands, ParseHost, ServerFieldsOf, ParseUrl, Decimal, DigitsUpTo, HostOf,
      HostFrom, HostAt, PortAt, OrNone, PortIs, PortNumber, L.Substr, Shows;
    ParseHostMeans(buf, fs, 0, s);
    PortValue(buf, gs, 0, s, n);
    ParsedFields(buf, true, fs, gs, s);
    NumberMeans(s);
    SubstrServer(buf, gs, 0, s);
    AuthorityKeys(gs);
  }

  lemma AuthorityKeys(gs: Fields)
    requires Schema !in gs && Path !in gs && Query !in gs && Fragment !in gs && Host in gs
    ensures gs.Keys == {Host, Port} <==> Userinfo !in gs && Port in gs
    ensures
      forall buf :: L.Substr(buf, gs, Schema) == L.Substr(buf, gs, Path) == L.Substr(buf, gs, Query)
                    == L.Substr(buf, gs, Fragment) == ""
  {
    forall f | f in gs ensures f == Host || f == Userinfo || f == Port {
      assert f != Schema && f != Path && f != Query && f != Fragment;
    }
  }

  lemma {:induction false} SplitStates(c: Cursor, buf: string, p: nat)
    requires WellLinked(c) && p <= |buf| && Split(c, buf, p).Some?
    ensures Split(c, buf, p).value.s == R.UrlRun(c.s, buf[p..])
    decreases |buf| - p
  {
    hide ParseUrlChar, FieldOf;
    if p < |buf| {
      SplitStates(Take(c, p, buf[p]).value, buf, p + 1);
      assert buf[p..][1..] == buf[p + 1..];
    } else {
      assert buf[p..] == "";
    }
  }

  /** The request line of a CONNECT to a server is read whole. */
  lemma AuthorityLineOver(m: Machine, s: Server, minor: nat) returns (w: Machine)
    requires m.core == Init(Both, true) && minor < 10 && IsServer(s) && |ServerText(s)| <= L.MAX_TARGET
    ensures Over(m, R.RequestText(CONNECT, ServerText(s), minor), w)
    ensures Is(w, R.AfterRequest(CONNECT, minor), m.trace + [MessageBegin, Data(Mark.Url, ServerText(s))])
  {
    AuthorityIsClean(s);
    hide *;
    w := R.RequestLineOver(m, CONNECT, ServerText(s), minor);
  }

  lemma AuthorityIsClean(s: Server)
    requires IsServer(s) && |ServerText(s)| <= L.MAX_TARGET
    ensures R.CleanTarget(CONNECT, ServerText(s))
  {
    ServerIsText(s);
    AuthorityCursor(s);
    hide Split, ServerText, IsServer, R.UrlRun;
    SplitStates(UrlParser.Start(true), ServerText(s), 0);
    assert ServerText(s)[0..] == ServerText(s);
  }

  /* ---- examples ------------------------------------------------------------ */

  const PROXIED := Absolute("http", Server(None, Named("example.com"), None), "/", "", "")

  lemma ProxiedIsAbsolute()
    ensures IsAbsolute(PROXIED) && TargetText(PROXIED) == "http://" + "example.com" + "/"
  {
    hide Decimal;
  }
}
