/** What the fields of an accepted target can be: nothing but octets of their own kind. */
module AcceptedTargets {
  import opened Ascii
  import opened Numerals
  import opened ParserTypes
  import opened ParserStep
  import opened UrlParser
  import opened AbsoluteForm
  import L = Locations

  /* ---- the host ----------------------------------------------------------- */

  function PercentAt(x: string): (k: nat)
    ensures k <= |x| && (k < |x| ==> x[k] == '%') && forall i :: 0 <= i < k ==> x[i] != '%'
  {
    if x == "" || x[0] == '%' then 0 else 1 + PercentAt(x[1..])
  }

  predicate IsName(x: string) { x != "" && AllOf(x, IsHostChar) }

  predicate IsAddress(x: string) { x != "" && AllOf(x, IsAddressChar) }

  predicate IsZoned(x: string) {
    var k := PercentAt(x);
    k + 1 < |x| && IsAddress(x[..k]) && AllOf(x[k + 1..], IsZoneChar)
  }

  /** What has been read of the host. */
  predicate Shaped(s: HostState, x: string) {
    match s
    case InHost => IsName(x)
    case V6 => IsAddress(x)
    case ZoneStart => |x| > 1 && IsAddress(x[..|x| - 1]) && x[|x| - 1] == '%'
    case Zone => IsZoned(x)
    case V6End => IsAddress(x) || IsZoned(x)
    case PortStart => IsName(x) || IsAddress(x) || IsZoned(x)
    case InPort => IsName(x) || IsAddress(x) || IsZoned(x)
    case _ => x == ""
  }

  lemma AllMore(x: string, ch: char, p: char -> bool)
    requires AllOf(x, p) && p(ch)
    ensures AllOf(x + [ch], p)
  {
  }

  lemma NoPercent(c: char)
    ensures IsAddressChar(c) ==> c != '%'
  {
  }

  lemma ZoneGrows(x: string, ch: char)
    requires IsZoned(x) && IsZoneChar(ch)
    ensures IsZoned(x + [ch])
  {
    var k, y := PercentAt(x), x + [ch];
    hide IsZoneChar, IsAddressChar;
    assert y[k] == '%' && forall i :: 0 <= i < k ==> y[i] == x[i];
    assert PercentAt(y) == k;
    assert y[..k] == x[..k] && y[k + 1..] == x[k + 1..] + [ch];
  }

  lemma ZoneBegins(x: string, ch: char)
    requires |x| > 1 && IsAddress(x[..|x| - 1]) && x[|x| - 1] == '%' && IsZoneChar(ch)
    ensures IsZoned(x + [ch])
  {
    var k, y := |x| - 1, x + [ch];
    forall i | 0 <= i < k ensures y[i] != '%' { NoPercent(x[..k][i]); }
    hide IsZoneChar, IsAddressChar;
    assert y[k] == '%';
    assert PercentAt(y) == k && y[..k] == x[..k] && y[k + 1..] == [ch];
  }

  /** A round inside the host adds its octet; any other leaves it. */
  lemma ShapeStep(s: HostState, x: string, ch: char)
    requires Shaped(s, x) && !HostChar(s, ch).Dead?
    ensures
      var t := HostChar(s, ch);
      if InsideHost(t) then Shaped(t, x + [ch]) else Shaped(t, x)
  {
    if s.ZoneStart? && IsZoneChar(ch) { ZoneBegins(x, ch); }
    else if s.Zone? && IsZoneChar(ch) { ZoneGrows(x, ch); }
    hide IsZoneChar, IsHex, IsAlpha, IsNum, IsUserinfoChar, IsZoned, IsHostChar;
    assert (x + [ch])[..|x|] == x;
  }

  /** The text of a field that may be empty or missing. */
  function TextIn(buf: string, fs: Fields, f: UrlField): string {
    if f in fs && 0 < fs[f].len && End(fs[f]) <= |buf| then buf[fs[f].off..End(fs[f])] else ""
  }

  /** What every round of the loop over the server part keeps. */
  predicate HostClean(s: HostState, fs: Fields, buf: string, from: nat, p: nat)
    requires p <= |buf|
  {
    && HostSound(s, fs, buf, from, p) && Shaped(s, TextIn(buf, fs, Host))
    && AllOf(TextIn(buf, fs, Userinfo), IsUserinfoChar)
  }

  lemma TextGrows(buf: string, r: Range, p: nat)
    requires p < |buf| && End(r) == p
    ensures buf[r.off..p + 1] == buf[r.off..p] + [buf[p]]
  {
  }

  /** Where the text of a part is when a round adds to it. */
  lemma PartGrows(s: HostState, fs: Fields, buf: string, from: nat, p: nat, f: UrlField)
    requires p < |buf| <= 0xFFFF && HostSound(s, fs, buf, from, p) && !HostChar(s, buf[p]).Dead?
    requires PartOf(HostChar(s, buf[p])) == Some(f) && f != Port
    ensures HostLinked(s, fs)
    ensures f in fs && fs[f].len > 0 ==> End(fs[f]) == p
    ensures !(f in fs && fs[f].len > 0) ==> HostMark(s, HostChar(s, buf[p]), fs, p)[f].off == p
  {
    hide IsHostChar, IsUserinfoChar, IsHex, IsZoneChar, IsDigits, IsNum;
  }

  /** A round adds its octet to the text of a part, and leaves the other alone. */
  lemma PartText(s: HostState, fs: Fields, buf: string, from: nat, p: nat, f: UrlField)
    requires p < |buf| <= 0xFFFF && HostSound(s, fs, buf, from, p) && !HostChar(s, buf[p]).Dead? && f != Port
    ensures HostLinked(s, fs)
    ensures
      var t := HostChar(s, buf[p]);
      TextIn(buf, HostMark(s, t, fs, p), f) == TextIn(buf, fs, f) + (if PartOf(t) == Some(f) then [buf[p]] else "")
  {
    MarkGrows(s, fs, buf, from, p);
    var t := HostChar(s, buf[p]);
    if PartOf(t) == Some(f) { PartGrows(s, fs, buf, from, p, f); }
    hide HostChar, HostMark, HostSound, HostLinked, PartOf;
    if PartOf(t) == Some(f) {
      var r := HostMark(s, t, fs, p)[f];
      if f in fs && fs[f].len > 0 { TextGrows(buf, fs[f], p); } else { assert buf[p..p + 1] == [buf[p]]; }
    }
  }

  lemma UserOctet(s: HostState, ch: char)
    ensures HostChar(s, ch).InUserinfo? ==> IsUserinfoChar(ch)
  {
  }

  lemma RoundClean(s: HostState, fs: Fields, buf: string, from: nat, p: nat)
    requires p < |buf| <= 0xFFFF && HostClean(s, fs, buf, from, p) && !HostChar(s, buf[p]).Dead?
    ensures HostLinked(s, fs)
    ensures HostClean(HostChar(s, buf[p]), HostMark(s, HostChar(s, buf[p]), fs, p), buf, from, p + 1)
  {
    var t := HostChar(s, buf[p]);
    RoundMeans(s, fs, buf, from, p);
    ShapeStep(s, TextIn(buf, fs, Host), buf[p]);
    UserOctet(s, buf[p]);
    PartText(s, fs, buf, from, p, Host);
    PartText(s, fs, buf, from, p, Userinfo);
    hide HostSound, HostChar, HostMark, HostLinked, Shaped, TextIn, IsUserinfoChar, SameOutside;
    if t.InUserinfo? { AllMore(TextIn(buf, fs, Userinfo), buf[p], IsUserinfoChar); }
  }

  lemma {:induction false} RunClean(s: HostState, fs: Fields, buf: string, from: nat, p: nat, end: nat)
    requires p <= end <= |buf| <= 0xFFFF && HostClean(s, fs, buf, from, p) && HostLinked(s, fs)
    requires HostRun(s, fs, buf, p, end).Some?
    ensures HostClean(HostRun(s, fs, buf, p, end).value.0, HostRun(s, fs, buf, p, end).value.1, buf, from, end)
    decreases end - p
  {
    hide HostClean, HostChar, HostMark;
    if p < end {
      RoundClean(s, fs, buf, from, p);
      var t := HostChar(s, buf[p]);
      CleanLinked(t, HostMark(s, t, fs, p), buf, from, p + 1);
      RunClean(t, HostMark(s, t, fs, p), buf, from, p + 1, end);
    }
  }

  lemma CleanLinked(s: HostState, fs: Fields, buf: string, from: nat, p: nat)
    requires p <= |buf| && HostClean(s, fs, buf, from, p)
    ensures HostLinked(s, fs)
  {
    hide Shaped, TextIn;
  }

  /** The host is a name, or an address with or without a zone. */
  predicate IsHostOf(x: string) { IsName(x) || IsAddress(x) || IsZoned(x) }

  lemma ParseHostClean(buf: string, fs: Fields, foundAt: bool)
    requires |buf| <= 0xFFFF && Laid(fs, |buf|) && Host in fs && Userinfo !in fs && Port !in fs
    requires ParseHost(buf, fs, foundAt).Some?
    ensures
      var gs := ParseHost(buf, fs, foundAt).value;
      && IsHostOf(TextIn(buf, gs, Host)) && AllOf(TextIn(buf, gs, Userinfo), IsUserinfoChar)
      && TextIn(buf, gs, Schema) == TextIn(buf, fs, Schema)
  {
    var h := fs[Host];
    var s := if foundAt then UserinfoStart else HostStart;
    var zeroed := fs[Host := h.(len := 0)];
    assert HostClean(s, zeroed, buf, h.off, h.off);
    RunClean(s, zeroed, buf, h.off, h.off, End(h));
    HostRunKeeps(s, zeroed, buf, h.off, h.off, End(h));
    hide Laid, HostRun, HostSound, IsName, IsAddress, IsZoned;
  }

  /* ---- the scheme ------------------------------------------------------------- */

  predicate SchemaClean(fs: Fields, buf: string, p: nat) {
    && p <= |buf|
    && (Schema in fs ==> 0 < fs[Schema].len && End(fs[Schema]) <= p && AllOf(TextIn(buf, fs, Schema), IsAlpha))
  }

  lemma SchemaOctet(s: State, ch: char)
    ensures FieldOf(ParseUrlChar(s, ch)) == Some(Schema) ==> IsAlpha(ch)
  {
    hide IsUrlChar, IsUserinfoChar;
  }

  lemma SchemaGrows(fs: Fields, gs: Fields, buf: string, p: nat)
    requires SchemaClean(fs, buf, p) && p < |buf| && IsAlpha(buf[p])
    requires gs == fs[Schema := if Schema in fs then Range(fs[Schema].off, fs[Schema].len + 1) else Range(p, 1)]
    requires Schema in fs ==> End(fs[Schema]) == p
    ensures SchemaClean(gs, buf, p + 1)
  {
    if Schema in fs {
      TextGrows(buf, fs[Schema], p);
    } else {
      assert buf[p..p + 1] == [buf[p]];
    }
  }

  lemma TakeSchema(c: Cursor, buf: string, p: nat)
    requires Sound(c, p) && SchemaClean(c.fields, buf, p) && p < |buf| <= 0xFFFF && Take(c, p, buf[p]).Some?
    ensures SchemaClean(Take(c, p, buf[p]).value.fields, buf, p + 1)
  {
    L.TakenAlive(c, p, buf[p]);
    hide ParseUrlChar, Sound, FieldOf, Take, WellLinked, IsAlpha;
    SchemaOctet(c.s, buf[p]);
    TakeMeans(c, p, buf[p]);
    if FieldOf(ParseUrlChar(c.s, buf[p])).Some? {
      L.FieldGoesOn(c, p, buf[p]);
      if FieldOf(ParseUrlChar(c.s, buf[p])) == Some(Schema) {
        SchemaGrows(c.fields, Take(c, p, buf[p]).value.fields, buf, p);
      }
    }
  }

  lemma {:induction false} SplitSchema(c: Cursor, buf: string, p: nat)
    requires WellLinked(c) && Sound(c, p) && SchemaClean(c.fields, buf, p) && p <= |buf| <= 0xFFFF
    requires Split(c, buf, p).Some?
    ensures SchemaClean(Split(c, buf, p).value.fields, buf, |buf|)
    decreases |buf| - p
  {
    hide Take, Sound, SchemaClean;
    if p < |buf| {
      TakeKeeps(c, p, buf[p]);
      TakeSchema(c, buf, p);
      SplitSchema(Take(c, p, buf[p]).value, buf, p + 1);
    }
  }

  /* ---- the whole target ---------------------------------------------------------- */

  /** Each part has nothing but octets of its own kind. */
  predicate IsClean(l: L.Location) {
    && AllOf(l.schema, IsAlpha) && AllOf(l.userinfo, IsUserinfoChar) && (l.host == "" || IsHostOf(l.host))
    && IsDigits(l.port) && (l.path == "" || IsPath(l.path)) && IsQuery(l.query) && IsFragment(l.fragment)
  }

  lemma SameText(buf: string, fs: Fields, f: UrlField)
    requires f in fs ==> End(fs[f]) <= |buf|
    ensures L.Substr(buf, fs, f) == TextIn(buf, fs, f)
  {
  }

  /** The fields that both loops leave. */
  lemma FieldsClean(buf: string, isConnect: bool)
    requires |buf| <= 0xFFFF && ParseUrl(buf, isConnect).Some?
    ensures
      var fs := ParseUrl(buf, isConnect).value.fields;
      && AllOf(TextIn(buf, fs, Schema), IsAlpha) && AllOf(TextIn(buf, fs, Userinfo), IsUserinfoChar)
      && (Host in fs ==> IsHostOf(TextIn(buf, fs, Host)))
  {
    hide Decimal, Take, ParseHost, Laid, IsDigits, DigitsUpTo, IsHostOf, IsUserinfoChar, IsAlpha;
    StartIsSound(isConnect);
    SplitKeeps(UrlParser.Start(isConnect), buf, 0);
    SplitSchema(UrlParser.Start(isConnect), buf, 0);
    var c := Split(UrlParser.Start(isConnect), buf, 0).value;
    SoundMeans(c, |buf|);
    if Host in c.fields { ParseHostClean(buf, c.fields, c.foundAt); }
  }

  /** Whatever target is accepted, its parts are clean. */
  lemma AcceptedIsClean(buf: string, isConnect: bool)
    requires |buf| <= 0xFFFF && ParseUrl(buf, isConnect).Some?
    ensures IsClean(L.Texts(buf, ParseUrl(buf, isConnect).value.fields))
  {
    hide ParseUrl, Written, Laid, L.Substr, TextIn, L.Chars, IsPath, IsQuery, IsFragment, IsHostOf, IsDigits;
    var fs := ParseUrl(buf, isConnect).value.fields;
    FieldsClean(buf, isConnect);
    FieldsAreSound(buf, isConnect);
    LaidBounds(fs, |buf|);
    SameText(buf, fs, Schema);
    SameText(buf, fs, Userinfo);
    SameText(buf, fs, Host);
    PortDigits(buf, fs);
    HostOrNone(buf, fs);
    WrittenIsFields(buf, isConnect);
    L.WrittenMeans(buf, isConnect);
    L.TextIsClean(buf, fs, Path);
    L.TextIsClean(buf, fs, Query);
    L.TextIsClean(buf, fs, Fragment);
    L.NothingIsLegal();
  }

  lemma PortDigits(buf: string, fs: Fields)
    requires Port in fs ==> End(fs[Port]) <= |buf| && IsDigits(buf[fs[Port].off..End(fs[Port])])
    ensures IsDigits(L.Substr(buf, fs, Port))
  {
  }

  lemma HostOrNone(buf: string, fs: Fields)
    ensures Host !in fs ==> TextIn(buf, fs, Host) == ""
  {
  }
}
