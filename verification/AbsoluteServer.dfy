/** The server part of a target (section 3.2 of RFC 3986): what `http_parse_host` finds in it. */
module AbsoluteServer {
  import opened Ascii
  import opened Numerals
  import opened Substrings
  import opened ParserTypes
  import opened UrlParser
  import opened AbsoluteForm

  /** The loop over the server part gets from `s` with `fs` at `p` to `t` with `gs` at `q`. */
  predicate HostLeads(buf: string, end: nat, s: HostState, fs: Fields, p: nat, t: HostState, gs: Fields, q: nat) {
    && HostLinked(s, fs) && HostLinked(t, gs) && p <= q <= end <= |buf|
    && HostRun(s, fs, buf, p, end) == HostRun(t, gs, buf, q, end)
  }

  lemma HostLeadsOn(
      buf: string, end: nat, s: HostState, fs: Fields, p: nat, t: HostState, gs: Fields, q: nat,
      u: HostState, hs: Fields, r: nat)
    requires HostLeads(buf, end, s, fs, p, t, gs, q) && HostLeads(buf, end, t, gs, q, u, hs, r)
    ensures HostLeads(buf, end, s, fs, p, u, hs, r)
  {
    hide HostRun;
  }

  lemma HostStep(buf: string, end: nat, s: HostState, fs: Fields, p: nat, t: HostState, gs: Fields)
    requires HostLinked(s, fs) && HostLinked(t, gs) && p < end <= |buf| && HostChar(s, buf[p]) == t && !t.Dead?
    requires HostMark(s, t, fs, p) == gs
    ensures HostLeads(buf, end, s, fs, p, t, gs, p + 1)
  {
    hide HostChar, HostMark, HostLinked;
  }

  /** The states that read a part on and on. */
  predicate ReadsOn(t: HostState, f: UrlField) {
    if f == Host then t.InHost? || t.V6? || t.Zone? else (f == Port && t.InPort?) || (f == Userinfo && t.InUserinfo?)
  }

  lemma MarkStays(fs: Fields, t: HostState, f: UrlField, p: nat, q: nat)
    requires ReadsOn(t, f) && (Host in fs || f == Host) && p <= q < 0xFFFF
    ensures HostLinked(t, fs[f := To(p, q)]) && HostMark(t, t, fs[f := To(p, q)], q) == fs[f := To(p, q + 1)]
  {
    UpdateTwice(fs, f, To(p, q), To(p, q + 1));
  }

  lemma {:induction false} HostStays(
      buf: string, end: nat, t: HostState, fs: Fields, f: UrlField, p: nat, q: nat, r: nat)
    requires ReadsOn(t, f) && (Host in fs || f == Host) && p <= q <= r <= end <= |buf| <= 0xFFFF
    requires forall i :: q <= i < r ==> HostChar(t, buf[i]) == t
    ensures HostLeads(buf, end, t, fs[f := To(p, q)], q, t, fs[f := To(p, r)], r)
    decreases r - q
  {
    StaysLinked(fs, t, f, To(p, q));
    hide HostChar, HostMark, HostLinked, HostRun, To;
    if q < r {
      MarkStays(fs, t, f, p, q);
      StaysLinked(fs, t, f, To(p, q + 1));
      StaysAlive(t, f);
      hide ReadsOn;
      HostStep(buf, end, t, fs[f := To(p, q)], q, t, fs[f := To(p, q + 1)]);
      HostStays(buf, end, t, fs, f, p, q + 1, r);
      hide HostLeads;
      HostLeadsOn(buf, end, t, fs[f := To(p, q)], q, t, fs[f := To(p, q + 1)], q + 1, t, fs[f := To(p, r)], r);
    }
  }

  lemma StaysLinked(fs: Fields, t: HostState, f: UrlField, r: Range)
    requires ReadsOn(t, f) && (Host in fs || f == Host)
    ensures HostLinked(t, fs[f := r])
  {
  }

  lemma StaysAlive(t: HostState, f: UrlField)
    requires ReadsOn(t, f)
    ensures !t.Dead?
  {
  }

  /** A part that begins here and takes the whole text. */
  lemma PartRuns(
      buf: string, end: nat, s: HostState, fs: Fields, p: nat, x: string, q: nat, t: HostState, f: UrlField)
    requires HostLinked(s, fs) && x != "" && Stands(buf, p, x) && q == p + |x| <= end <= |buf| <= 0xFFFF
    requires ReadsOn(t, f) && HostMark(s, t, fs, p) == fs[f := To(p, p + 1)] && HostChar(s, x[0]) == t
    requires forall i :: 0 <= i < |x| ==> HostChar(t, x[i]) == t
    ensures HostLeads(buf, end, s, fs, p, t, fs[f := To(p, q)], q)
  {
    StandAt(buf, p, x);
    StaysAlive(t, f);
    PartLinked(s, fs);
    StaysLinked(fs, t, f, To(p, p + 1));
    hide HostChar, HostMark, HostLinked, HostRun, ReadsOn, HostLeads, To;
    HostStep(buf, end, s, fs, p, t, fs[f := To(p, p + 1)]);
    HostStays(buf, end, t, fs, f, p, p + 1, q);
    HostLeadsOn(buf, end, s, fs, p, t, fs[f := To(p, p + 1)], p + 1, t, fs[f := To(p, q)], q);
  }

  lemma PartLinked(s: HostState, fs: Fields)
    requires HostLinked(s, fs)
    ensures Host in fs
  {
  }

  /* ---- user information -------------------------------------------------- */

  lemma UserChars(ch: char)
    requires IsUserinfoChar(ch)
    ensures HostChar(UserinfoStart, ch) == HostChar(InUserinfo, ch) == InUserinfo
  {
    NoAtSign();
    hide IsUserinfoChar;
  }

  lemma NoAtSign()
    ensures !IsUserinfoChar('@')
  {
  }

  lemma UserEnds()
    ensures HostChar(UserinfoStart, '@') == HostChar(InUserinfo, '@') == HostStart
  {
  }

  function WithUser(fs: Fields, p: nat, q: nat): Fields
    requires p <= q
  {
    if p == q then fs else fs[Userinfo := To(p, q)]
  }

  lemma UserRuns(buf: string, end: nat, fs: Fields, p: nat, u: string, q: nat)
    requires Host in fs && AllOf(u, IsUserinfoChar) && Stands(buf, p, u) && q == p + |u| < end <= |buf| <= 0xFFFF
    requires buf[q] == '@'
    ensures HostLeads(buf, end, UserinfoStart, fs, p, HostStart, WithUser(fs, p, q), q + 1)
  {
    UserEnds();
    if u == "" {
      hide HostChar, HostRun;
      HostStep(buf, end, UserinfoStart, fs, p, HostStart, fs);
    } else {
      UserMarks(fs, p, q);
      UserLinked(fs, p, q);
      forall i | 0 <= i < |u| ensures HostChar(UserinfoStart, u[i]) == HostChar(InUserinfo, u[i]) == InUserinfo {
        hide HostChar, IsUserinfoChar;
        UserChars(u[i]);
      }
      hide HostChar, IsUserinfoChar, HostRun, HostMark, HostLinked, HostLeads, To, Stands;
      var gs := fs[Userinfo := To(p, q)];
      PartRuns(buf, end, UserinfoStart, fs, p, u, q, InUserinfo, Userinfo);
      HostStep(buf, end, InUserinfo, gs, q, HostStart, gs);
      HostLeadsOn(buf, end, UserinfoStart, fs, p, InUserinfo, gs, q, HostStart, gs, q + 1);
    }
  }

  lemma UserMarks(fs: Fields, p: nat, q: nat)
    requires Host in fs && p < 0xFFFF && p <= q
    ensures HostMark(UserinfoStart, InUserinfo, fs, p) == fs[Userinfo := To(p, p + 1)]
    ensures
      var gs := fs[Userinfo := To(p, q)];
      HostLinked(InUserinfo, gs) && HostLinked(HostStart, gs) && HostMark(InUserinfo, HostStart, gs, q) == gs
  {
  }

  lemma UserLinked(fs: Fields, p: nat, q: nat)
    requires Host in fs
    ensures HostLinked(UserinfoStart, fs)
  {
  }

  /* ---- the host ----------------------------------------------------------- */

  /** The host is known by its place, but nothing of it has been read. */
  predicate HostAwaited(fs: Fields) { Host in fs && fs[Host].len == 0 }

  lemma NameChars(ch: char)
    requires IsHostChar(ch)
    ensures HostChar(HostStart, ch) == HostChar(InHost, ch) == InHost
  {
    NoBracket();
    hide IsHostChar;
  }

  lemma NoBracket()
    ensures !IsHostChar('[')
  {
  }

  lemma HostMarks(s: HostState, fs: Fields, p: nat)
    requires HostAwaited(fs) && p < 0xFFFF
    ensures HostLinked(HostStart, fs) && HostLinked(V6Start, fs)
    ensures HostMark(HostStart, InHost, fs, p) == HostMark(V6Start, V6, fs, p) == fs[Host := To(p, p + 1)]
    ensures HostMark(HostStart, V6Start, fs, p) == fs
  {
  }

  lemma NameRuns(buf: string, end: nat, fs: Fields, p: nat, name: string, q: nat)
    requires HostAwaited(fs) && name != "" && AllOf(name, IsHostChar) && Stands(buf, p, name)
    requires q == p + |name| <= end <= |buf| <= 0xFFFF
    ensures HostLeads(buf, end, HostStart, fs, p, InHost, fs[Host := To(p, q)], q)
  {
    HostMarks(HostStart, fs, p);
    forall i | 0 <= i < |name| ensures HostChar(HostStart, name[i]) == HostChar(InHost, name[i]) == InHost {
      hide HostChar, IsHostChar;
      NameChars(name[i]);
    }
    hide HostChar, IsHostChar, HostRun, HostMark, HostLinked, HostLeads, To, Stands;
    PartRuns(buf, end, HostStart, fs, p, name, q, InHost, Host);
  }

  lemma AddressChars(ch: char)
    requires IsAddressChar(ch)
    ensures HostChar(V6Start, ch) == HostChar(V6, ch) == V6
  {
    NoHexBracket();
    hide IsHex;
  }

  lemma NoHexBracket()
    ensures !IsHex(']') && !IsZoneChar(']')
  {
  }

  lemma BracketChars()
    ensures HostChar(HostStart, '[') == V6Start && HostChar(V6, ']') == HostChar(Zone, ']') == V6End
    ensures HostChar(V6, '%') == ZoneStart
  {
  }

  /** The bracket and the address. */
  lemma AddressRuns(buf: string, end: nat, fs: Fields, p: nat, address: string, q: nat)
    requires HostAwaited(fs) && address != "" && AllOf(address, IsAddressChar) && Stands(buf, p + 1, address)
    requires q == p + 1 + |address| <= end <= |buf| <= 0xFFFF && buf[p] == '['
    ensures HostLeads(buf, end, HostStart, fs, p, V6, fs[Host := To(p + 1, q)], q)
  {
    HostMarks(HostStart, fs, p);
    HostMarks(HostStart, fs, p + 1);
    BracketChars();
    forall i | 0 <= i < |address| ensures HostChar(V6Start, address[i]) == HostChar(V6, address[i]) == V6 {
      hide HostChar, IsAddressChar;
      AddressChars(address[i]);
    }
    hide HostChar, IsAddressChar, HostRun, HostMark, HostLinked, HostLeads, To, Stands, HostAwaited;
    HostStep(buf, end, HostStart, fs, p, V6Start, fs);
    PartRuns(buf, end, V6Start, fs, p + 1, address, q, V6, Host);
    HostLeadsOn(buf, end, HostStart, fs, p, V6Start, fs, p + 1, V6, fs[Host := To(p + 1, q)], q);
  }

  lemma ZoneChars(ch: char)
    requires IsZoneChar(ch)
    ensures HostChar(ZoneStart, ch) == HostChar(Zone, ch) == Zone
  {
    NoHexBracket();
    hide IsZoneChar;
  }

  lemma ZoneMarks(fs: Fields, p: nat, q: nat)
    requires p <= q < 0xFFFF
    ensures
      var gs, hs := fs[Host := To(p, q)], fs[Host := To(p, q + 1)];
      && HostLinked(V6, gs) && HostLinked(ZoneStart, gs) && HostLinked(Zone, gs) && HostLinked(ZoneStart, hs)
      && HostLinked(Zone, hs) && HostLinked(V6End, gs)
      && HostMark(V6, ZoneStart, gs, q) == hs && HostMark(ZoneStart, Zone, gs, q) == hs
      && HostMark(V6, V6End, gs, q) == gs && HostMark(Zone, V6End, gs, q) == gs
  {
    UpdateTwice(fs, Host, To(p, q), To(p, q + 1));
  }

  /** The zone with its percent sign, which belong to the host. */
  lemma ZoneRuns(buf: string, end: nat, fs: Fields, p: nat, q: nat, zone: string, r: nat)
    requires zone != "" && AllOf(zone, IsZoneChar) && Stands(buf, q + 1, zone) && p <= q
    requires r == q + 1 + |zone| <= end <= |buf| <= 0xFFFF && buf[q] == '%'
    ensures HostLeads(buf, end, V6, fs[Host := To(p, q)], q, Zone, fs[Host := To(p, r)], r)
  {
    StandAt(buf, q + 1, zone);
    ZoneMarks(fs, p, q);
    ZoneMarks(fs, p, q + 1);
    BracketChars();
    forall i | q + 1 <= i < r ensures HostChar(ZoneStart, buf[i]) == HostChar(Zone, buf[i]) == Zone {
      hide HostChar, IsZoneChar;
      ZoneChars(buf[i]);
    }
    hide HostChar, IsZoneChar, HostRun, HostMark, HostLinked, HostLeads, To, Stands;
    HostStep(buf, end, V6, fs[Host := To(p, q)], q, ZoneStart, fs[Host := To(p, q + 1)]);
    HostStep(buf, end, ZoneStart, fs[Host := To(p, q + 1)], q + 1, Zone, fs[Host := To(p, q + 2)]);
    HostStays(buf, end, Zone, fs, Host, p, q + 2, r);
    HostLeadsOn(buf, end, V6, fs[Host := To(p, q)], q, ZoneStart, fs[Host := To(p, q + 1)], q + 1,
                Zone, fs[Host := To(p, q + 2)], q + 2);
    HostLeadsOn(buf, end, V6, fs[Host := To(p, q)], q, Zone, fs[Host := To(p, q + 2)], q + 2,
                Zone, fs[Host := To(p, r)], r);
  }

  /** What stands in a text that holds a host in brackets, which ends at `q`. */
  predicate BracketStands(buf: string, p: nat, address: string, zone: Option<string>, q: nat) {
    var k := p + 1 + |address|;
    && p + 1 <= q < |buf| && buf[p] == '[' && Stands(buf, p + 1, address) && buf[q] == ']'
    && if zone.Some? then k < |buf| && buf[k] == '%' && Stands(buf, k + 1, zone.value) && q == k + 1 + |zone.value|
       else q == k
  }

  /** A host in brackets. */
  lemma BracketRuns(buf: string, end: nat, fs: Fields, p: nat, address: string, zone: Option<string>, q: nat)
    requires HostAwaited(fs) && IsHostText(Bracketed(address, zone)) && BracketStands(buf, p, address, zone, q)
    requires q < end <= |buf| <= 0xFFFF
    ensures HostLeads(buf, end, HostStart, fs, p, V6End, fs[Host := To(p + 1, q)], q + 1)
  {
    ZoneMarks(fs, p + 1, q);
    BracketChars();
    hide HostChar, IsZoneChar, IsAddressChar, HostRun, HostMark, HostLinked, HostLeads, To, Stands, AllOf, HostAwaited;
    var k := p + 1 + |address|;
    AddressRuns(buf, end, fs, p, address, k);
    var t := if zone.Some? then Zone else V6;
    if zone.Some? {
      ZoneRuns(buf, end, fs, p + 1, k, zone.value, q);
      HostLeadsOn(buf, end, HostStart, fs, p, V6, fs[Host := To(p + 1, k)], k, t, fs[Host := To(p + 1, q)], q);
    }
    HostStep(buf, end, t, fs[Host := To(p + 1, q)], q, V6End, fs[Host := To(p + 1, q)]);
    HostLeadsOn(buf, end, HostStart, fs, p, t, fs[Host := To(p + 1, q)], q, V6End, fs[Host := To(p + 1, q)], q + 1);
  }

  /* ---- the port ------------------------------------------------------------ */

  lemma PortChars(ch: char)
    ensures IsNum(ch) ==> HostChar(PortStart, ch) == HostChar(InPort, ch) == InPort
    ensures HostChar(InHost, ':') == HostChar(V6End, ':') == PortStart
  {
  }

  lemma PortMarks(s: HostState, fs: Fields, p: nat)
    requires Host in fs && p < 0xFFFF && (s.InHost? || s.V6End?)
    ensures HostLinked(s, fs) && HostLinked(PortStart, fs) && HostMark(s, PortStart, fs, p) == fs
    ensures HostMark(PortStart, InPort, fs, p) == fs[Port := To(p, p + 1)]
  {
  }

  lemma PortRuns(buf: string, end: nat, s: HostState, fs: Fields, p: nat, port: string)
    requires Host in fs && (s.InHost? || s.V6End?) && port != "" && IsDigits(port) && Stands(buf, p + 1, port)
    requires end == p + 1 + |port| <= |buf| <= 0xFFFF && buf[p] == ':'
    ensures HostLeads(buf, end, s, fs, p, InPort, fs[Port := To(p + 1, end)], end)
  {
    PortMarks(s, fs, p);
    PortMarks(s, fs, p + 1);
    PortChars(':');
    forall i | 0 <= i < |port| ensures HostChar(PortStart, port[i]) == HostChar(InPort, port[i]) == InPort {
      hide HostChar;
      PortChars(port[i]);
    }
    hide HostChar, HostRun, HostMark, HostLinked, HostLeads, To, Stands, IsDigits;
    HostStep(buf, end, s, fs, p, PortStart, fs);
    PartRuns(buf, end, PortStart, fs, p + 1, port, end, InPort, Port);
    HostLeadsOn(buf, end, s, fs, p, PortStart, fs, p + 1, InPort, fs[Port := To(p + 1, end)], end);
  }

  /* ---- the whole server part ------------------------------------------------ */

  /** Where the host begins and ends without its brackets, when the part begins at `p`. */
  function HostFrom(h: HostText, p: nat): nat { if h.Named? then p else p + 1 }

  function HostRange(h: HostText, p: nat): Range { To(HostFrom(h, p), HostFrom(h, p) + |HostOf(h)|) }

  lemma HostStands(buf: string, p: nat, h: HostText)
    requires Stands(buf, p, HostPart(h)) && IsHostText(h)
    ensures Stands(buf, HostFrom(h, p), HostOf(h)) && HostPart(h) != ""
    ensures h.Bracketed? ==>
      BracketStands(buf, p, h.address, h.zone, p + 1 + |HostOf(h)|) && |HostPart(h)| == |HostOf(h)| + 2
  {
    if h.Bracketed? {
      var x := HostOf(h);
      StandParts(buf, p, "[", x + "]");
      StandAt(buf, p, "[");
      StandParts(buf, p + 1, x, "]");
      StandAt(buf, p + 1 + |x|, "]");
      InBrackets(buf, p, h);
    }
  }

  lemma InBrackets(buf: string, p: nat, h: HostText)
    requires h.Bracketed? && Stands(buf, p + 1, HostOf(h)) && p + 1 + |HostOf(h)| < |buf|
    requires buf[p] == '[' && buf[p + 1 + |HostOf(h)|] == ']'
    ensures BracketStands(buf, p, h.address, h.zone, p + 1 + |HostOf(h)|)
  {
    if h.zone.Some? {
      var k := p + 1 + |h.address|;
      StandParts(buf, p + 1, h.address, "%" + h.zone.value);
      StandParts(buf, k, "%", h.zone.value);
      StandAt(buf, k, "%");
    } else {
      assert HostOf(h) == h.address;
    }
  }

  lemma HostRuns(buf: string, end: nat, fs: Fields, p: nat, h: HostText, q: nat)
    requires HostAwaited(fs) && IsHostText(h) && Stands(buf, p, HostPart(h)) && q == p + |HostPart(h)|
    requires q <= end <= |buf| <= 0xFFFF
    ensures HostLeads(buf, end, HostStart, fs, p, if h.Named? then InHost else V6End, fs[Host := HostRange(h, p)], q)
  {
    HostStands(buf, p, h);
    hide HostLeads, Stands, AllOf, BracketStands, HostAwaited;
    if h.Named? {
      NameRuns(buf, end, fs, p, h.name, q);
    } else {
      hide IsHostText, HostOf, HostPart;
      BracketRuns(buf, end, fs, p, h.address, h.zone, q - 1);
    }
  }

  /** The fields with those of a server part that begins at `p`. */
  function UserFields(fs: Fields, p: nat, s: Server): Fields {
    if s.userinfo.Some? then WithUser(fs, p, p + |s.userinfo.value|) else fs
  }

  function HostAt(p: nat, s: Server): nat { p + |UserPart(s)| }

  function HostFields(fs: Fields, p: nat, s: Server): Fields {
    UserFields(fs, p, s)[Host := HostRange(s.host, HostAt(p, s))]
  }

  function PortAt(p: nat, s: Server): nat { HostAt(p, s) + |HostPart(s.host)| }

  function ServerFieldsOf(fs: Fields, p: nat, s: Server): Fields {
    if s.port.Some? then HostFields(fs, p, s)[Port := Range(PortAt(p, s) + 1, |s.port.value|)]
    else HostFields(fs, p, s)
  }

  function FirstState(s: Server): HostState { if s.userinfo.Some? then UserinfoStart else HostStart }

  function LastState(s: Server): HostState {
    if s.port.Some? then InPort else if s.host.Named? then InHost else V6End
  }

  lemma ServerPartsStand(buf: string, p: nat, s: Server)
    requires Stands(buf, p, ServerText(s))
    ensures Stands(buf, HostAt(p, s), HostPart(s.host)) && PortAt(p, s) <= p + |ServerText(s)| <= |buf|
    ensures s.userinfo.Some? ==>
      var u := s.userinfo.value;
      Stands(buf, p, u) && HostAt(p, s) == p + |u| + 1 <= |buf| && buf[p + |u|] == '@'
    ensures s.userinfo.None? ==> HostAt(p, s) == p
    ensures s.port.Some? ==>
      var k := PortAt(p, s);
      && Stands(buf, k + 1, s.port.value) && k < |buf| && buf[k] == ':'
      && p + |ServerText(s)| == k + 1 + |s.port.value|
    ensures s.port.None? ==> p + |ServerText(s)| == PortAt(p, s)
  {
    hide HostPart;
    StandParts(buf, p, UserPart(s), HostAndPort(s));
    StandParts(buf, HostAt(p, s), HostPart(s.host), PortPart(s));
    if s.userinfo.Some? {
      StandParts(buf, p, s.userinfo.value, "@");
      StandAt(buf, p + |s.userinfo.value|, "@");
    }
    if s.port.Some? {
      StandParts(buf, PortAt(p, s), ":", s.port.value);
      StandAt(buf, PortAt(p, s), ":");
    }
  }

  lemma ServerMeans(s: Server)
    requires IsServer(s)
    ensures IsHostText(s.host) && (s.userinfo.Some? ==> AllOf(s.userinfo.value, IsUserinfoChar))
    ensures s.port.Some? ==> s.port.value != "" && IsDigits(s.port.value) && Decimal(s.port.value) <= 0xFFFF
  {
    hide IsHostText, AllOf, IsDigits, Decimal;
  }

  lemma UserFieldsAwait(fs: Fields, p: nat, s: Server)
    requires HostAwaited(fs)
    ensures HostAwaited(UserFields(fs, p, s)) && Host in fs
    ensures HostLinked(HostStart, fs)
  {
  }

  lemma FrontRuns(buf: string, end: nat, fs: Fields, p: nat, s: Server)
    requires HostAwaited(fs) && IsServer(s) && Stands(buf, p, ServerText(s)) && end == p + |ServerText(s)|
    requires |buf| <= 0xFFFF
    ensures HostLeads(buf, end, FirstState(s), fs, p, HostStart, UserFields(fs, p, s), HostAt(p, s))
  {
    ServerPartsStand(buf, p, s);
    ServerMeans(s);
    UserFieldsAwait(fs, p, s);
    hide HostRun, HostChar, HostMark, HostAwaited, Stands, AllOf, IsServer, IsHostText, ServerText, HostPart, UserPart,
      HostLinked, WithUser;
    if s.userinfo.Some? {
      hide HostLeads;
      UserRuns(buf, end, fs, p, s.userinfo.value, p + |s.userinfo.value|);
    }
  }

  /** Up to the end of the host. */
  lemma MiddleRuns(buf: string, end: nat, fs: Fields, p: nat, s: Server)
    requires HostAwaited(fs) && IsServer(s) && Stands(buf, p, ServerText(s)) && end == p + |ServerText(s)|
    requires |buf| <= 0xFFFF
    ensures
      HostLeads(buf, end, FirstState(s), fs, p, if s.host.Named? then InHost else V6End, HostFields(fs, p, s),
                PortAt(p, s))
  {
    ServerPartsStand(buf, p, s);
    ServerMeans(s);
    UserFieldsAwait(fs, p, s);
    FrontRuns(buf, end, fs, p, s);
    hide HostAwaited, Stands, AllOf, IsServer, IsHostText, ServerText, HostPart, HostAt, HostLeads, UserFields,
      FirstState, HostRange;
    HostRuns(buf, end, UserFields(fs, p, s), HostAt(p, s), s.host, PortAt(p, s));
    HostLeadsOn(buf, end, FirstState(s), fs, p, HostStart, UserFields(fs, p, s), HostAt(p, s),
                if s.host.Named? then InHost else V6End, HostFields(fs, p, s), PortAt(p, s));
  }

  lemma ServerRuns(buf: string, end: nat, fs: Fields, p: nat, s: Server)
    requires HostAwaited(fs) && IsServer(s) && Stands(buf, p, ServerText(s)) && end == p + |ServerText(s)|
    requires |buf| <= 0xFFFF
    ensures HostLeads(buf, end, FirstState(s), fs, p, LastState(s), ServerFieldsOf(fs, p, s), end)
  {
    ServerPartsStand(buf, p, s);
    ServerMeans(s);
    MiddleRuns(buf, end, fs, p, s);
    HostIsThere(fs, p, s);
    PortField(fs, p, s, end);
    LastMeans(s);
    hide *;
    if s.port.Some? {
      var t := if s.host.Named? then InHost else V6End;
      PortRuns(buf, end, t, HostFields(fs, p, s), PortAt(p, s), s.port.value);
      HostLeadsOn(buf, end, FirstState(s), fs, p, t, HostFields(fs, p, s), PortAt(p, s),
                  InPort, ServerFieldsOf(fs, p, s), end);
    }
  }

  lemma LastMeans(s: Server)
    ensures LastState(s) == if s.port.Some? then InPort else if s.host.Named? then InHost else V6End
  {
  }

  lemma HostIsThere(fs: Fields, p: nat, s: Server)
    ensures Host in HostFields(fs, p, s)
  {
    hide UserFields, HostRange;
  }

  lemma PortField(fs: Fields, p: nat, s: Server, end: nat)
    ensures s.port.None? ==> ServerFieldsOf(fs, p, s) == HostFields(fs, p, s)
    ensures s.port.Some? && end == PortAt(p, s) + 1 + |s.port.value| ==>
      ServerFieldsOf(fs, p, s) == HostFields(fs, p, s)[Port := To(PortAt(p, s) + 1, end)]
  {
    hide HostFields, PortAt;
  }

  lemma RunEnds(buf: string, end: nat, s: HostState, fs: Fields, p: nat, t: HostState, gs: Fields)
    requires HostLeads(buf, end, s, fs, p, t, gs, end)
    ensures HostLinked(s, fs) && p <= end <= |buf| && HostRun(s, fs, buf, p, end) == Some((t, gs))
  {
    hide HostChar, HostMark, HostLinked;
  }

  /** What `http_parse_host` makes of a server part. */
  lemma ParseHostMeans(buf: string, fs: Fields, p: nat, s: Server)
    requires IsServer(s) && Stands(buf, p, ServerText(s)) && |buf| <= 0xFFFF
    requires Host in fs && fs[Host] == Range(p, |ServerText(s)|)
    ensures p + |ServerText(s)| <= |buf|
    ensures ParseHost(buf, fs, s.userinfo.Some?) == Some(ServerFieldsOf(fs[Host := Range(p, 0)], p, s))
  {
    var end, gs := p + |ServerText(s)|, fs[Host := Range(p, 0)];
    ServerRuns(buf, end, gs, p, s);
    RunEnds(buf, end, FirstState(s), gs, p, LastState(s), ServerFieldsOf(gs, p, s));
    hide ServerText, IsServer, Stands, HostRun, ServerFieldsOf, HostLeads, HostLinked;
  }
}
