/** Request targets with a scheme and a server (section 5.3.2 of RFC 7230), and how they are split. */
module AbsoluteForm {
  import opened Ascii
  import opened Numerals
  import opened Substrings
  import opened ParserTypes
  import opened ParserStep
  import opened UrlParser

  /** A registered name or an IPv4 address, or an IPv6 address in brackets with a zone behind it. */
  datatype HostText = Named(name: string) | Bracketed(address: string, zone: Option<string>)

  datatype Server = Server(userinfo: Option<string>, host: HostText, port: Option<string>)

  datatype Absolute = Absolute(schema: string, server: Server, path: string, query: string, fragment: string)

  predicate AllOf(s: string, p: char -> bool) { forall i :: 0 <= i < |s| ==> p(s[i]) }

  predicate IsAddressChar(c: char) { IsHex(c) || c == ':' || c == '.' }

  predicate IsHostText(h: HostText) {
    match h
    case Named(name) => name != "" && AllOf(name, IsHostChar)
    case Bracketed(address, zone) =>
      && address != "" && AllOf(address, IsAddressChar)
      && (zone.Some? ==> zone.value != "" && AllOf(zone.value, IsZoneChar))
  }

  predicate IsServer(s: Server) {
    && (s.userinfo.Some? ==> AllOf(s.userinfo.value, IsUserinfoChar)) && IsHostText(s.host)
    && (s.port.Some? ==> s.port.value != "" && IsDigits(s.port.value) && Decimal(s.port.value) <= 0xFFFF)
  }

  /** A path begins with a slash; without path and query there is no fragment. */
  predicate IsAbsolute(a: Absolute) {
    && a.schema != "" && AllOf(a.schema, IsAlpha) && IsServer(a.server)
    && (a.path != "" ==> a.path[0] == '/' && AllOf(a.path, IsUrlChar))
    && IsQuery(a.query) && IsFragment(a.fragment) && (a.fragment != "" ==> a.path != "" || a.query != "")
  }

  /** The host as it is told, without the brackets. */
  function HostOf(h: HostText): string {
    match h
    case Named(name) => name
    case Bracketed(address, zone) => address + (if zone.Some? then "%" + zone.value else "")
  }

  function HostPart(h: HostText): string { if h.Named? then h.name else "[" + (HostOf(h) + "]") }

  function UserPart(s: Server): string { if s.userinfo.Some? then s.userinfo.value + "@" else "" }

  function PortPart(s: Server): string { if s.port.Some? then ":" + s.port.value else "" }

  function HostAndPort(s: Server): string { HostPart(s.host) + PortPart(s) }

  function ServerText(s: Server): string { UserPart(s) + HostAndPort(s) }

  function TargetText(a: Absolute): string {
    a.schema + ("://" + (ServerText(a.server) + (a.path + (Tail('?', a.query) + Tail('#', a.fragment)))))
  }

  /* ---- the loop over the target ---------------------------------------- */

  /** The loop gets from `c` at `p` to `d` at `q`. */
  predicate Leads(buf: string, c: Cursor, p: nat, d: Cursor, q: nat) {
    WellLinked(c) && WellLinked(d) && p <= q <= |buf| && Split(c, buf, p) == Split(d, buf, q)
  }

  lemma LeadsOn(buf: string, c: Cursor, p: nat, d: Cursor, q: nat, e: Cursor, r: nat)
    requires Leads(buf, c, p, d, q) && Leads(buf, d, q, e, r)
    ensures Leads(buf, c, p, e, r)
  {
    hide Split;
  }

  function To(p: nat, q: nat): Range
    requires p <= q
  {
    Range(p, q - p)
  }

  /** The cursor inside a field that reaches from `p` to `q`. */
  function In(fs: Fields, f: UrlField, p: nat, q: nat, t: State, at: bool): (c: Cursor)
    requires p <= q
    ensures WellLinked(c) && c.s == t && c.last == Some(f) && c.foundAt == at
  {
    Cursor(t, Some(f), fs[f := To(p, q)], at)
  }

  /** A round that starts a field. */
  lemma FieldStarts(buf: string, c: Cursor, p: nat, t: State, f: UrlField)
    requires WellLinked(c) && p < |buf| <= 0xFFFF && ParseUrlChar(c.s, buf[p]) == t && !t.Dead?
    requires FieldOf(t) == Some(f) != c.last
    ensures Leads(buf, c, p, In(c.fields, f, p, p + 1, t, c.foundAt || t.ReqServerWithAt?), p + 1)
  {
    hide ParseUrlChar, Take, Split, FieldOf;
    TakeMeans(c, p, buf[p]);
    SplitStep(c, buf, p);
  }

  /** A round that adds to the field. */
  lemma FieldGrows(buf: string, fs: Fields, f: UrlField, p: nat, q: nat, s: State, at: bool, t: State)
    requires p <= q < |buf| <= 0xFFFF && ParseUrlChar(s, buf[q]) == t && !t.Dead? && FieldOf(t) == Some(f)
    ensures Leads(buf, In(fs, f, p, q, s, at), q, In(fs, f, p, q + 1, t, at || t.ReqServerWithAt?), q + 1)
  {
    hide ParseUrlChar, Take, Split, FieldOf;
    var c := In(fs, f, p, q, s, at);
    TakeMeans(c, q, buf[q]);
    SplitStep(c, buf, q);
    UpdateTwice(fs, f, To(p, q), To(p, q + 1));
  }

  /** A stretch that adds to the field. */
  lemma {:induction false} FieldStays(buf: string, fs: Fields, f: UrlField, p: nat, q: nat, r: nat, t: State, at: bool)
    requires p <= q <= r <= |buf| <= 0xFFFF && !t.Dead? && !t.ReqServerWithAt? && FieldOf(t) == Some(f)
    requires forall i :: q <= i < r ==> ParseUrlChar(t, buf[i]) == t
    ensures Leads(buf, In(fs, f, p, q, t, at), q, In(fs, f, p, r, t, at), r)
    decreases r - q
  {
    hide ParseUrlChar, Split, FieldOf, In;
    if q < r {
      FieldGrows(buf, fs, f, p, q, t, at, t);
      FieldStays(buf, fs, f, p, q + 1, r, t, at);
      hide Leads;
      LeadsOn(buf, In(fs, f, p, q, t, at), q, In(fs, f, p, q + 1, t, at), q + 1, In(fs, f, p, r, t, at), r);
    }
  }

  /** A field that begins here and takes the whole text. */
  lemma FieldSplits(buf: string, c: Cursor, p: nat, s: string, q: nat, t: State, f: UrlField)
    requires WellLinked(c) && s != "" && Stands(buf, p, s) && q == p + |s| && |buf| <= 0xFFFF
    requires FieldOf(t) == Some(f) != c.last && !t.ReqServerWithAt? && !t.Dead? && ParseUrlChar(c.s, s[0]) == t
    requires forall k :: 0 < k < |s| ==> ParseUrlChar(t, s[k]) == t
    ensures Leads(buf, c, p, In(c.fields, f, p, q, t, c.foundAt), q)
  {
    hide ParseUrlChar, FieldOf, In, Leads;
    StandAt(buf, p, s);
    FieldStarts(buf, c, p, t, f);
    FieldStays(buf, c.fields, f, p, p + 1, q, t, c.foundAt);
    LeadsOn(buf, c, p, In(c.fields, f, p, p + 1, t, c.foundAt), p + 1, In(c.fields, f, p, q, t, c.foundAt), q);
  }

  /** A delimiter that belongs to no field. */
  lemma MarkSplits(buf: string, fs: Fields, f: UrlField, p: nat, q: nat, s: State, at: bool, k: nat, t: State)
    requires p <= q && k < |buf| <= 0xFFFF && ParseUrlChar(s, buf[k]) == t && FieldOf(t).None? && !t.Dead?
    ensures Leads(buf, In(fs, f, p, q, s, at), k, In(fs, f, p, q, t, at), k + 1)
  {
    hide ParseUrlChar, Take, Split, FieldOf;
    TakeMeans(In(fs, f, p, q, s, at), k, buf[k]);
    SplitStep(In(fs, f, p, q, s, at), buf, k);
  }

  lemma SchemaChars(s: string)
    requires s != "" && AllOf(s, IsAlpha)
    ensures ParseUrlChar(ReqSpacesBeforeUrl, s[0]) == ReqSchema
    ensures forall k :: 0 <= k < |s| ==> ParseUrlChar(ReqSchema, s[k]) == ReqSchema
    ensures ParseUrlChar(ReqSchema, ':') == ReqSchemaSlash && ParseUrlChar(ReqSchemaSlash, '/') == ReqSchemaSlashSlash
    ensures ParseUrlChar(ReqSchemaSlashSlash, '/') == ReqServerStart
  {
  }

  lemma ServerFields()
    ensures FieldOf(ReqSchema) == Some(Schema) && FieldOf(ReqServer) == FieldOf(ReqServerWithAt) == Some(Host)
    ensures FieldOf(ReqPath) == Some(Path) && FieldOf(ReqQueryString) == Some(Query)
      && FieldOf(ReqFragment) == Some(Fragment)
    ensures FieldOf(ReqSchemaSlash) == FieldOf(ReqSchemaSlashSlash) == FieldOf(ReqServerStart) == None
  {
  }

  lemma SchemaStands(buf: string, s: string)
    requires Stands(buf, 0, s + "://")
    ensures Stands(buf, 0, s) && |s| + 3 <= |buf| && buf[|s|] == ':' && buf[|s| + 1] == buf[|s| + 2] == '/'
  {
    StandParts(buf, 0, s, "://");
    StandAt(buf, |s|, "://");
  }

  lemma StartMeans()
    ensures
      var c := Start(false);
      WellLinked(c) && c.s.ReqSpacesBeforeUrl? && c.last == None && c.fields == map[] && !c.foundAt
  {
  }

  lemma SchemaText(buf: string, s: string)
    requires s != "" && AllOf(s, IsAlpha) && Stands(buf, 0, s) && |s| < |buf| <= 0xFFFF && buf[|s|] == ':'
    ensures Leads(buf, Start(false), 0, In(map[], Schema, 0, |s|, ReqSchemaSlash, false), |s| + 1)
  {
    SchemaChars(s);
    ServerFields();
    StartMeans();
    hide *;
    var n := |s|;
    FieldSplits(buf, Start(false), 0, s, n, ReqSchema, Schema);
    MarkSplits(buf, map[], Schema, 0, n, ReqSchema, false, n, ReqSchemaSlash);
    LeadsOn(buf, Start(false), 0, In(map[], Schema, 0, n, ReqSchema, false), n,
            In(map[], Schema, 0, n, ReqSchemaSlash, false), n + 1);
  }

  lemma Slashes(buf: string, n: nat)
    requires n + 2 < |buf| <= 0xFFFF && buf[n + 1] == buf[n + 2] == '/'
    ensures
      Leads(buf, In(map[], Schema, 0, n, ReqSchemaSlash, false), n + 1,
            In(map[], Schema, 0, n, ReqServerStart, false), n + 3)
  {
    SchemaChars("a");
    ServerFields();
    hide *;
    MarkSplits(buf, map[], Schema, 0, n, ReqSchemaSlash, false, n + 1, ReqSchemaSlashSlash);
    MarkSplits(buf, map[], Schema, 0, n, ReqSchemaSlashSlash, false, n + 2, ReqServerStart);
    LeadsOn(buf, In(map[], Schema, 0, n, ReqSchemaSlash, false), n + 1,
            In(map[], Schema, 0, n, ReqSchemaSlashSlash, false), n + 2,
            In(map[], Schema, 0, n, ReqServerStart, false), n + 3);
  }

  /** The scheme and the two slashes. */
  lemma SchemaSplits(buf: string, s: string)
    requires s != "" && AllOf(s, IsAlpha) && Stands(buf, 0, s) && |s| + 3 <= |buf| <= 0xFFFF
    requires buf[|s|] == ':' && buf[|s| + 1] == buf[|s| + 2] == '/'
    ensures Leads(buf, Start(false), 0, In(map[], Schema, 0, |s|, ReqServerStart, false), |s| + 3)
  {
    hide *;
    SchemaText(buf, s);
    Slashes(buf, |s|);
    LeadsOn(buf, Start(false), 0, In(map[], Schema, 0, |s|, ReqSchemaSlash, false), |s| + 1,
            In(map[], Schema, 0, |s|, ReqServerStart, false), |s| + 3);
  }

  /** What the loop over the target lets through in the server part. */
  predicate IsServerChar(c: char) { IsUserinfoChar(c) || c == '[' || c == ']' }

  lemma ServerChars(ch: char)
    requires IsServerChar(ch)
    ensures ParseUrlChar(ReqServerStart, ch) == ReqServer && ParseUrlChar(ReqServer, ch) == ReqServer
    ensures ParseUrlChar(ReqServerWithAt, ch) == ReqServer
    ensures ParseUrlChar(ReqServerStart, '@') == ReqServerWithAt && ParseUrlChar(ReqServer, '@') == ReqServerWithAt
  {
  }

  lemma {:induction false} DigitsAreHostChars(s: string)
    requires IsDigits(s)
    ensures AllOf(s, IsServerChar)
    decreases |s|
  {
  }

  lemma AddressIsServer(c: char)
    ensures IsAddressChar(c) ==> IsServerChar(c)
    ensures IsHostChar(c) ==> IsServerChar(c)
    ensures IsZoneChar(c) ==> IsServerChar(c)
    ensures IsUserinfoChar(c) ==> IsServerChar(c)
  {
  }

  lemma HostIsServer(s: Server)
    requires IsServer(s)
    ensures HostAndPort(s) != "" && AllOf(HostAndPort(s), IsServerChar)
  {
    hide IsHostChar, IsAddressChar, IsZoneChar, IsUserinfoChar, IsHex, IsAlpha;
    forall c ensures (IsAddressChar(c) || IsHostChar(c) || IsZoneChar(c) ==> IsServerChar(c)) { AddressIsServer(c); }
    MarksAreServer();
    if s.port.Some? { DigitsAreHostChars(s.port.value); }
  }

  lemma MarksAreServer()
    ensures IsServerChar('%') && IsServerChar(':') && IsServerChar('[') && IsServerChar(']')
  {
  }

  /** Server characters without an at sign. */
  lemma PlainServerSplits(buf: string, c: Cursor, p: nat, s: string, q: nat)
    requires WellLinked(c) && s != "" && Stands(buf, p, s) && q == p + |s| && |buf| <= 0xFFFF
    requires AllOf(s, IsServerChar) && c.s.ReqServerStart? && c.last != Some(Host)
    ensures Leads(buf, c, p, In(c.fields, Host, p, q, ReqServer, c.foundAt), q)
  {
    ServerFields();
    hide ParseUrlChar, IsServerChar, FieldOf, In, Leads;
    forall k | 0 <= k < |s| ensures ParseUrlChar(ReqServer, s[k]) == ReqServer { ServerChars(s[k]); }
    ServerChars(s[0]);
    FieldSplits(buf, c, p, s, q, ReqServer, Host);
  }

  predicate AtStands(buf: string, p: nat, u: string, q: nat, h: string, r: nat) {
    && Stands(buf, p, u) && q == p + |u| < |buf| && buf[q] == '@' && Stands(buf, q + 1, h) && r == q + 1 + |h|
  }

  /** The server with user information: the at sign belongs to it. */
  lemma AtSplits(buf: string, c: Cursor, p: nat, u: string, q: nat, h: string, r: nat)
    requires WellLinked(c) && h != "" && AtStands(buf, p, u, q, h, r) && |buf| <= 0xFFFF
    requires AllOf(u, IsServerChar) && AllOf(h, IsServerChar) && c.s.ReqServerStart? && c.last != Some(Host)
    ensures Leads(buf, c, p, In(c.fields, Host, p, r, ReqServer, true), r)
  {
    hide IsServerChar, Stands, AllOf, In, Leads;
    AtSign(buf, c, p, u, q);
    BehindAt(buf, c.fields, p, q + 1, h, r);
    LeadsOn(buf, c, p, In(c.fields, Host, p, q + 1, ReqServerWithAt, true), q + 1,
            In(c.fields, Host, p, r, ReqServer, true), r);
  }

  /** The user information and the at sign. */
  lemma AtSign(buf: string, c: Cursor, p: nat, u: string, q: nat)
    requires WellLinked(c) && Stands(buf, p, u) && q == p + |u| < |buf| <= 0xFFFF && buf[q] == '@'
    requires AllOf(u, IsServerChar) && c.s.ReqServerStart? && c.last != Some(Host)
    ensures Leads(buf, c, p, In(c.fields, Host, p, q + 1, ReqServerWithAt, true), q + 1)
  {
    AtChars();
    ServerFields();
    hide ParseUrlChar, IsServerChar, Stands, AllOf, FieldOf, In, Leads;
    if u == "" {
      FieldStarts(buf, c, p, ReqServerWithAt, Host);
    } else {
      PlainServerSplits(buf, c, p, u, q);
      FieldGrows(buf, c.fields, Host, p, q, ReqServer, c.foundAt, ReqServerWithAt);
      LeadsOn(buf, c, p, In(c.fields, Host, p, q, ReqServer, c.foundAt), q,
              In(c.fields, Host, p, q + 1, ReqServerWithAt, true), q + 1);
    }
  }

  lemma AtChars()
    ensures ParseUrlChar(ReqServerStart, '@') == ReqServerWithAt && ParseUrlChar(ReqServer, '@') == ReqServerWithAt
  {
  }

  lemma ServerStays(buf: string, p: nat, h: string)
    requires Stands(buf, p, h) && AllOf(h, IsServerChar)
    ensures p + |h| <= |buf|
    ensures forall i :: p <= i < p + |h| ==>
      ParseUrlChar(ReqServer, buf[i]) == ReqServer == ParseUrlChar(ReqServerWithAt, buf[i])
  {
    StandAt(buf, p, h);
    hide ParseUrlChar, IsServerChar;
    forall i | p <= i < p + |h|
      ensures ParseUrlChar(ReqServer, buf[i]) == ReqServer == ParseUrlChar(ReqServerWithAt, buf[i])
    {
      ServerChars(buf[i]);
    }
  }

  /** What stands behind the at sign. */
  lemma BehindAt(buf: string, fs: Fields, p: nat, q: nat, h: string, r: nat)
    requires h != "" && Stands(buf, q, h) && p <= q && r == q + |h| && |buf| <= 0xFFFF && AllOf(h, IsServerChar)
    ensures
      Leads(buf, In(fs, Host, p, q, ReqServerWithAt, true), q, In(fs, Host, p, r, ReqServer, true), r)
  {
    ServerStays(buf, q, h);
    ServerFields();
    hide ParseUrlChar, IsServerChar, Stands, FieldOf, In, Leads, AllOf;
    FieldGrows(buf, fs, Host, p, q, ReqServerWithAt, true, ReqServer);
    FieldStays(buf, fs, Host, p, q + 1, r, ReqServer, true);
    LeadsOn(buf, In(fs, Host, p, q, ReqServerWithAt, true), q, In(fs, Host, p, q + 1, ReqServer, true), q + 1,
            In(fs, Host, p, r, ReqServer, true), r);
  }

  lemma UserIsServer(s: Server)
    requires IsServer(s) && s.userinfo.Some?
    ensures AllOf(s.userinfo.value, IsServerChar)
  {
    var u := s.userinfo.value;
    forall i | 0 <= i < |u| ensures IsServerChar(u[i]) { AddressIsServer(u[i]); }
  }

  lemma ServerSplits(buf: string, c: Cursor, p: nat, s: Server, q: nat)
    requires WellLinked(c) && IsServer(s) && Stands(buf, p, ServerText(s)) && |buf| <= 0xFFFF
    requires c.s.ReqServerStart? && c.last != Some(Host) && !c.foundAt && q == p + |ServerText(s)|
    ensures Leads(buf, c, p, In(c.fields, Host, p, q, ReqServer, s.userinfo.Some?), q)
  {
    HostIsServer(s);
    ServerStands(buf, p, s);
    if s.userinfo.Some? { UserIsServer(s); }
    hide *;
    if s.userinfo.Some? {
      AtSplits(buf, c, p, s.userinfo.value, p + |s.userinfo.value|, HostAndPort(s), q);
    } else {
      PlainServerSplits(buf, c, p, HostAndPort(s), q);
    }
  }

  lemma ServerStands(buf: string, p: nat, s: Server)
    requires Stands(buf, p, ServerText(s))
    ensures s.userinfo.Some? ==>
      AtStands(buf, p, s.userinfo.value, p + |s.userinfo.value|, HostAndPort(s), p + |ServerText(s)|)
    ensures s.userinfo.None? ==> ServerText(s) == HostAndPort(s)
  {
    hide HostAndPort;
    if s.userinfo.Some? {
      var u, h := s.userinfo.value, HostAndPort(s);
      assert ServerText(s) == u + ("@" + h);
      StandParts(buf, p, u, "@" + h);
      StandParts(buf, p + |u|, "@", h);
      StandAt(buf, p + |u|, "@");
    } else {
      assert UserPart(s) == "";
    }
  }

  lemma PathChars(path: string)
    requires path != "" && path[0] == '/' && AllOf(path, IsUrlChar)
    ensures ParseUrlChar(ReqServer, path[0]) == ReqPath
    ensures forall k :: 0 <= k < |path| ==> ParseUrlChar(ReqPath, path[k]) == ReqPath
  {
  }

  /** Where the parts begin. */
  function ServerAt(a: Absolute): nat { |a.schema| + 3 }

  function PathAt(a: Absolute): (p: nat)
    ensures p >= ServerAt(a)
  {
    ServerAt(a) + |ServerText(a.server)|
  }

  function QueryAt(a: Absolute): (p: nat)
    ensures p >= PathAt(a)
  {
    PathAt(a) + |a.path|
  }

  function FragmentAt(a: Absolute): nat { QueryAt(a) + |Tail('?', a.query)| }

  /** The fields that the first loop finds. */
  function Outer(a: Absolute): Fields {
    var fs := map[Schema := To(0, |a.schema|)][Host := To(ServerAt(a), PathAt(a))];
    var gs := if a.path == "" then fs else fs[Path := To(PathAt(a), QueryAt(a))];
    var hs := if a.query == "" then gs else gs[Query := Range(QueryAt(a) + 1, |a.query|)];
    if a.fragment == "" then hs else hs[Fragment := Range(FragmentAt(a) + 1, |a.fragment|)]
  }

  /** Where the parts stand. */
  lemma PartsStand(a: Absolute)
    ensures
      var buf := TargetText(a);
      && Stands(buf, 0, a.schema + "://") && Stands(buf, ServerAt(a), ServerText(a.server))
      && Stands(buf, PathAt(a), a.path) && Stands(buf, QueryAt(a), Tail('?', a.query))
      && Stands(buf, FragmentAt(a), Tail('#', a.fragment)) && FragmentAt(a) + |Tail('#', a.fragment)| == |buf|
  {
    hide ServerText, Tail;
    var buf, server, rest := TargetText(a), ServerText(a.server), Tail('?', a.query) + Tail('#', a.fragment);
    TargetIsParts(a);
    assert Stands(buf, 0, buf);
    hide Stands, TargetText;
    StandParts(buf, 0, a.schema + "://", server + (a.path + rest));
    StandParts(buf, ServerAt(a), server, a.path + rest);
    StandParts(buf, PathAt(a), a.path, rest);
    StandParts(buf, QueryAt(a), Tail('?', a.query), Tail('#', a.fragment));
  }

  lemma TargetIsParts(a: Absolute)
    ensures TargetText(a) == a.schema + "://" + (ServerText(a.server)
                             + (a.path + (Tail('?', a.query) + Tail('#', a.fragment))))
  {
    hide ServerText, Tail;
  }

  /** The scheme and the server. */
  function AfterServer(a: Absolute): (c: Cursor)
    ensures WellLinked(c) && c.s.ReqServer? && c.last == Some(Host)
  {
    In(map[Schema := To(0, |a.schema|)], Host, ServerAt(a), PathAt(a), ReqServer, a.server.userinfo.Some?)
  }

  lemma FrontSplits(a: Absolute)
    requires IsAbsolute(a) && |TargetText(a)| <= 0xFFFF
    ensures Leads(TargetText(a), Start(false), 0, AfterServer(a), PathAt(a))
  {
    PartsStand(a);
    SchemaStands(TargetText(a), a.schema);
    AbsoluteMeans(a);
    FirstField(|a.schema|);
    hide ServerText, TargetText, IsServer, Tail, Stands, AllOf, IsAbsolute, In, Leads;
    SchemaSplits(TargetText(a), a.schema);
    var c := In(map[], Schema, 0, |a.schema|, ReqServerStart, false);
    ServerSplits(TargetText(a), c, ServerAt(a), a.server, PathAt(a));
    LeadsOn(TargetText(a), Start(false), 0, c, ServerAt(a), AfterServer(a), PathAt(a));
  }

  lemma FirstField(n: nat)
    ensures In(map[], Schema, 0, n, ReqServerStart, false).fields == map[Schema := To(0, n)]
  {
  }

  lemma AbsoluteMeans(a: Absolute)
    requires IsAbsolute(a)
    ensures a.schema != "" && AllOf(a.schema, IsAlpha) && IsServer(a.server)
    ensures a.path != "" ==> a.path[0] == '/' && AllOf(a.path, IsUrlChar)
    ensures IsTail('?', a.query) && IsTail('#', a.fragment) && (a.fragment != "" ==> a.path != "" || a.query != "")
  {
    hide IsServer, AllOf, IsQuery, IsFragment;
  }

  /** The cursor behind the path, if there is one. */
  function PastPath(d: Cursor, p: nat, path: string, q: nat): (e: Cursor)
    requires WellLinked(d) && p <= q
    ensures WellLinked(e)
  {
    if path == "" then d else In(d.fields, Path, p, q, ReqPath, d.foundAt)
  }

  lemma PathSplits(buf: string, d: Cursor, p: nat, path: string, q: nat)
    requires WellLinked(d) && d.s.ReqServer? && d.last == Some(Host) && Stands(buf, p, path) && |buf| <= 0xFFFF
    requires (path != "" ==> path[0] == '/' && AllOf(path, IsUrlChar)) && q == p + |path|
    ensures Leads(buf, d, p, PastPath(d, p, path, q), q)
  {
    StandsInside(buf, p, path);
    if path != "" { PathChars(path); }
    ServerFields();
    hide Split, ParseUrlChar, Stands, AllOf, FieldOf, In;
    if path != "" {
      hide Leads;
      FieldSplits(buf, d, p, path, q, ReqPath, Path);
    }
  }

  /** The cursor behind a query or a fragment, if there is one. */
  function PastTail(e: Cursor, p: nat, mark: char, s: string): (g: Cursor)
    requires WellLinked(e)
    ensures WellLinked(g)
  {
    var f := if mark == '?' then Query else Fragment;
    if s == "" then e else Cursor(TailState(mark), Some(f), e.fields[f := Range(p + 1, |s|)], e.foundAt)
  }

  lemma TailLeads(buf: string, e: Cursor, p: nat, mark: char, s: string, q: nat)
    requires WellLinked(e) && e.last.Some? && IsTail(mark, s) && Stands(buf, p, Tail(mark, s)) && |buf| <= 0xFFFF
    requires s != "" ==>
      if mark == '?' then (e.s.ReqPath? || e.s.ReqServer?) && e.last == FieldOf(e.s)
      else mark == '#' && (e.s.ReqPath? || e.s.ReqQueryString?) && e.last != Some(Fragment)
    requires q == p + |Tail(mark, s)|
    ensures Leads(buf, e, p, PastTail(e, p, mark, s), q)
  {
    if s == "" {
      assert Tail(mark, s) == "";
      StandsInside(buf, p, "");
      hide Split;
    } else {
      hide *;
      SomeTailLeads(buf, e, p, mark, s, q);
    }
  }

  lemma SomeTailLeads(buf: string, e: Cursor, p: nat, mark: char, s: string, q: nat)
    requires WellLinked(e) && e.last.Some? && IsTail(mark, s) && Stands(buf, p, Tail(mark, s)) && |buf| <= 0xFFFF
    requires s != "" && q == p + |Tail(mark, s)|
    requires
      if mark == '?' then (e.s.ReqPath? || e.s.ReqServer?) && e.last == FieldOf(e.s)
      else mark == '#' && (e.s.ReqPath? || e.s.ReqQueryString?) && e.last != Some(Fragment)
    ensures Leads(buf, e, p, PastTail(e, p, mark, s), q)
  {
    StandsInside(buf, p, Tail(mark, s));
    hide *;
    TailCursor(buf, e, p, mark, s, q);
    LeadsIs(buf, e, p, PastTail(e, p, mark, s), q);
  }

  lemma TailCursor(buf: string, e: Cursor, p: nat, mark: char, s: string, q: nat)
    requires WellLinked(e) && e.last.Some? && IsTail(mark, s) && p <= q <= |buf| <= 0xFFFF && s != ""
    requires q == p + |Tail(mark, s)| && buf[p..q] == Tail(mark, s)
    requires
      if mark == '?' then (e.s.ReqPath? || e.s.ReqServer?) && e.last == FieldOf(e.s)
      else mark == '#' && (e.s.ReqPath? || e.s.ReqQueryString?) && e.last != Some(Fragment)
    ensures Split(e, buf, p) == Split(PastTail(e, p, mark, s), buf, q)
  {
    hide ParseUrlChar, Take, Split, IsTail, Tail, FieldOf, WellLinked;
    TailSplits(e, buf, p, mark, s);
  }

  lemma LeadsIs(buf: string, c: Cursor, p: nat, d: Cursor, q: nat)
    requires WellLinked(c) && WellLinked(d) && p <= q <= |buf| && Split(c, buf, p) == Split(d, buf, q)
    ensures Leads(buf, c, p, d, q)
  {
    hide Split, WellLinked;
  }

  function AfterPath(a: Absolute): (e: Cursor)
    ensures WellLinked(e)
  {
    PastPath(AfterServer(a), PathAt(a), a.path, QueryAt(a))
  }

  function AfterQuery(a: Absolute): (e: Cursor)
    ensures WellLinked(e)
  {
    PastTail(AfterPath(a), QueryAt(a), '?', a.query)
  }

  function Rest(a: Absolute): (g: Cursor)
    ensures WellLinked(g)
  {
    PastTail(AfterQuery(a), FragmentAt(a), '#', a.fragment)
  }

  lemma PathLeads(a: Absolute)
    requires IsAbsolute(a) && |TargetText(a)| <= 0xFFFF
    ensures Leads(TargetText(a), Start(false), 0, AfterPath(a), QueryAt(a))
  {
    PartsStand(a);
    AbsoluteMeans(a);
    FrontSplits(a);
    hide ServerText, TargetText, Tail, Stands, AllOf, IsAbsolute, AfterServer, Leads, PastPath, PathAt;
    PathSplits(TargetText(a), AfterServer(a), PathAt(a), a.path, QueryAt(a));
    LeadsOn(TargetText(a), Start(false), 0, AfterServer(a), PathAt(a), AfterPath(a), QueryAt(a));
  }

  lemma QueryLeads(a: Absolute)
    requires IsAbsolute(a) && |TargetText(a)| <= 0xFFFF
    ensures Leads(TargetText(a), Start(false), 0, AfterQuery(a), FragmentAt(a))
  {
    PartsStand(a);
    AbsoluteMeans(a);
    PathLeads(a);
    AfterPathMeans(a);
    hide ServerText, TargetText, Tail, Stands, AllOf, IsAbsolute, IsTail, AfterPath, Leads, PastTail, QueryAt;
    TailLeads(TargetText(a), AfterPath(a), QueryAt(a), '?', a.query, FragmentAt(a));
    LeadsOn(TargetText(a), Start(false), 0, AfterPath(a), QueryAt(a), AfterQuery(a), FragmentAt(a));
  }

  lemma RestLeads(a: Absolute)
    requires IsAbsolute(a) && |TargetText(a)| <= 0xFFFF
    ensures Leads(TargetText(a), Start(false), 0, Rest(a), |TargetText(a)|)
  {
    PartsStand(a);
    AbsoluteMeans(a);
    QueryLeads(a);
    AfterPathMeans(a);
    PastMeans(AfterPath(a), QueryAt(a), '?', a.query);
    hide ServerText, TargetText, Tail, Stands, AllOf, IsAbsolute, IsTail, AfterQuery, Leads, PastTail, FragmentAt;
    TailLeads(TargetText(a), AfterQuery(a), FragmentAt(a), '#', a.fragment, |TargetText(a)|);
    LeadsOn(TargetText(a), Start(false), 0, AfterQuery(a), FragmentAt(a), Rest(a), |TargetText(a)|);
  }

  lemma PastMeans(e: Cursor, p: nat, mark: char, s: string)
    requires WellLinked(e)
    ensures
      var g := PastTail(e, p, mark, s);
      && g.s == (if s == "" then e.s else TailState(mark)) && g.foundAt == e.foundAt
      && g.last == if s == "" then e.last else Some(if mark == '?' then Query else Fragment)
  {
  }

  lemma AfterPathMeans(a: Absolute)
    ensures
      var e := AfterPath(a);
      && e.s == (if a.path == "" then ReqServer else ReqPath) && e.last == FieldOf(e.s)
      && e.last == (if a.path == "" then Some(Host) else Some(Path))
  {
    hide ServerText;
  }

  lemma OuterSplits(a: Absolute)
    requires IsAbsolute(a) && |TargetText(a)| <= 0xFFFF
    ensures
      var r := Split(Start(false), TargetText(a), 0);
      r.Some? && r.value.fields == Outer(a) && r.value.foundAt == a.server.userinfo.Some?
  {
    RestLeads(a);
    RestMeans(a);
    hide Split, TargetText, IsAbsolute, Rest, Outer;
    SplitEnds(Rest(a), TargetText(a));
  }

  lemma RestMeans(a: Absolute)
    ensures Rest(a).fields == Outer(a) && Rest(a).foundAt == a.server.userinfo.Some?
  {
    hide PathAt, QueryAt, FragmentAt, ServerAt, To;
  }
}
