/**
 What `on_url` tells the owner of a codec about the target of a request.  It splits
 each fragment of the target on its own, the first as it is and the others as the
 target of a CONNECT, and takes the texts from the whole target read so far.
 */
module Locations {
  import opened Ascii
  import opened Numerals
  import opened ParserTypes
  import opened ParserStep
  import opened Fragmentation
  import opened UrlParser

  /** `max_uri_len` */
  const MAX_TARGET: nat := 8192

  /** What `http_request` holds of a target. */
  datatype Location = Location(
    schema: string, host: string, port: string, path: string, query: string, fragment: string, userinfo: string)

  const NOWHERE := Location("", "", "", "", "", "", "")

  /** `_urline`, `_url.field_data`, `_connected`, and what the owner has been told. */
  datatype Locator = Locator(target: string, ranges: Fields, connected: bool, told: Location)

  const UNLOCATED := Locator("", map[], false, NOWHERE)

  /** `substr`; an entry that was never written is empty. */
  function Substr(s: string, fs: Fields, f: UrlField): string {
    if f !in fs || fs[f].off > |s| then ""
    else s[fs[f].off..Bounded(End(fs[f]), |s|)]
  }

  function Texts(s: string, fs: Fields): Location {
    Location(Substr(s, fs, Schema), Substr(s, fs, Host), Substr(s, fs, Port), Substr(s, fs, Path), Substr(s, fs, Query),
             Substr(s, fs, Fragment), Substr(s, fs, Userinfo))
  }

  /** `on_url`: one fragment more. */
  function OnTarget(l: Locator, s: string): Locator {
    var target := l.target + s;
    if |target| > MAX_TARGET then l.(target := target)
    else
      var ranges := l.ranges + Written(s, l.connected);
      Locator(target, ranges, true, if ParseUrl(s, l.connected).Some? then Texts(target, ranges) else l.told)
  }

  function OnTargets(l: Locator, pieces: seq<string>): Locator
    decreases |pieces|
  {
    if pieces == [] then l else OnTargets(OnTarget(l, pieces[0]), pieces[1..])
  }

  /** No `substr` throws: every entry lies inside the target read so far. */
  predicate Fit(l: Locator) { |l.target| <= MAX_TARGET && Inside(l.ranges, |l.target|) }

  lemma OnTargetFits(l: Locator, s: string)
    requires Fit(l) && |l.target + s| <= MAX_TARGET
    ensures Fit(OnTarget(l, s))
  {
    hide Written, ParseUrl;
    WrittenMeans(s, l.connected);
  }

  /** A fragment without octets changes nothing. */
  lemma EmptyFragment(l: Locator)
    requires l.connected && |l.target| <= MAX_TARGET
    ensures OnTarget(l, "") == l
  {
    var c := Start(true);
    assert Leave(c, "", 0) == c && Split(c, "", 0) == Some(c);
    assert Written("", true) == map[] && ParseUrl("", true).None?;
    assert l.ranges + map[] == l.ranges && l.target + "" == l.target;
  }

  /* ---- what the entries can be ----------------------------------------- */

  /** The octets of a path, a query or a fragment, and what stands in front. */
  predicate Chars(f: UrlField, buf: string, a: nat, b: nat)
    requires a < b <= |buf|
  {
    match f
    case Path => (buf[a] == '/' || buf[a] == '*') && forall k :: a <= k < b ==> IsUrlChar(buf[k])
    case Query => a > 0 && buf[a - 1] == '?' && forall k :: a <= k < b ==> IsUrlChar(buf[k]) || buf[k] == '?'
    case Fragment =>
      && a > 0 && buf[a - 1] == '#' && buf[a] != '#'
      && forall k :: a <= k < b ==> IsUrlChar(buf[k]) || buf[k] == '?' || buf[k] == '#'
    case _ => true
  }

  predicate AllChars(fs: Fields, buf: string, p: nat) {
    p <= |buf| && forall f :: f in fs ==> fs[f].len > 0 && End(fs[f]) <= p && Chars(f, buf, fs[f].off, End(fs[f]))
  }

  /** What a round of the loop keeps. */
  predicate Clean(c: Cursor, buf: string, p: nat) {
    && AllChars(c.fields, buf, p)
    && (c.s.ReqQueryStringStart? ==> p > 0 && buf[p - 1] == '?')
    && (c.s.ReqFragmentStart? ==> p > 0 && buf[p - 1] == '#')
  }

  /** The octet that starts or prolongs a field. */
  lemma FieldChar(s: State, ch: char)
    ensures
      var t := ParseUrlChar(s, ch);
      && (t.ReqPath? ==> IsUrlChar(ch) && (s.ReqPath? || ch == '/' || ch == '*'))
      && (t.ReqQueryString? ==> (IsUrlChar(ch) || ch == '?') && (s.ReqQueryString? || s.ReqQueryStringStart?))
      && (t.ReqFragment? ==>
            if s.ReqFragment? then IsUrlChar(ch) || ch == '?' || ch == '#'
            else s.ReqFragmentStart? && (IsUrlChar(ch) || ch == '?') && ch != '#')
      && (t.ReqQueryStringStart? ==> ch == '?') && (t.ReqFragmentStart? ==> ch == '#')
  {
    hide IsAlpha, IsUserinfoChar;
  }

  /** The field that an octet is added to. */
  lemma FieldClean(c: Cursor, buf: string, p: nat, f: UrlField)
    requires Clean(c, buf, p) && p < |buf| && FieldOf(ParseUrlChar(c.s, buf[p])) == Some(f)
    requires f in c.fields ==> FieldOf(c.s) == Some(f) && End(c.fields[f]) == p
    requires f !in c.fields ==> FieldOf(c.s) != Some(f)
    ensures Chars(f, buf, if f in c.fields then c.fields[f].off else p, p + 1)
  {
    hide ParseUrlChar, IsUrlChar;
    FieldChar(c.s, buf[p]);
  }

  /** It is the current one, or one that was not written before. */
  lemma FieldGoesOn(c: Cursor, p: nat, ch: char)
    requires Sound(c, p) && FieldOf(ParseUrlChar(c.s, ch)).Some? && !ParseUrlChar(c.s, ch).Dead?
    ensures
      var f := FieldOf(ParseUrlChar(c.s, ch)).value;
      if f in c.fields then c.last == Some(f) && FieldOf(c.s) == Some(f) && End(c.fields[f]) == p
      else c.last != Some(f) && FieldOf(c.s) != Some(f)
  {
    hide ParseUrlChar, Reached, Laid, FieldOf, Rank;
    StatesMoveOn(c.s, ch);
  }

  lemma TakenAlive(c: Cursor, p: nat, ch: char)
    requires Sound(c, p) && WellLinked(c) && Take(c, p, ch).Some?
    ensures !ParseUrlChar(c.s, ch).Dead?
  {
    hide ParseUrlChar, FieldOf, Sound, WellLinked;
  }

  lemma TakeClean(c: Cursor, buf: string, p: nat)
    requires Sound(c, p) && Clean(c, buf, p) && p < |buf| <= 0xFFFF && Take(c, p, buf[p]).Some?
    ensures Clean(Take(c, p, buf[p]).value, buf, p + 1)
  {
    TakenAlive(c, p, buf[p]);
    hide ParseUrlChar, Sound, Chars, AllChars, FieldOf, Take, WellLinked;
    FieldChar(c.s, buf[p]);
    TakeMeans(c, p, buf[p]);
    var d := Take(c, p, buf[p]).value;
    if FieldOf(ParseUrlChar(c.s, buf[p])).Some? {
      var f := FieldOf(ParseUrlChar(c.s, buf[p])).value;
      FieldGoesOn(c, p, buf[p]);
      FieldClean(c, buf, p, f);
      OneMore(c.fields, d.fields, buf, p, f);
    } else {
      CharsStay(c.fields, buf, p);
    }
  }

  lemma CharsStay(fs: Fields, buf: string, p: nat)
    requires AllChars(fs, buf, p) && p < |buf|
    ensures AllChars(fs, buf, p + 1)
  {
    hide Chars;
  }

  /** A field has been started or prolonged. */
  lemma OneMore(fs: Fields, gs: Fields, buf: string, p: nat, f: UrlField)
    requires AllChars(fs, buf, p) && p < |buf|
    requires gs == fs[f := if f in fs then Range(fs[f].off, fs[f].len + 1) else Range(p, 1)]
    requires f in fs ==> End(fs[f]) == p
    requires Chars(f, buf, if f in fs then fs[f].off else p, p + 1)
    ensures AllChars(gs, buf, p + 1)
  {
    hide Chars;
  }

  lemma {:induction false} LeaveClean(c: Cursor, buf: string, p: nat)
    requires WellLinked(c) && Sound(c, p) && Clean(c, buf, p) && p <= |buf| <= 0xFFFF
    ensures AllChars(Leave(c, buf, p).fields, buf, |buf|)
    decreases |buf| - p
  {
    hide Take, Sound, AllChars;
    if p < |buf| && Take(c, p, buf[p]).Some? {
      TakeKeeps(c, p, buf[p]);
      TakeClean(c, buf, p);
      LeaveClean(Take(c, p, buf[p]).value, buf, p + 1);
    } else {
      CharsMore(c.fields, buf, p);
    }
  }

  lemma CharsMore(fs: Fields, buf: string, p: nat)
    requires AllChars(fs, buf, p)
    ensures AllChars(fs, buf, |buf|)
  {
    hide Chars;
  }

  predicate Inside(fs: Fields, n: nat) { forall f :: f in fs ==> End(fs[f]) <= n }

  lemma RoundInside(s: HostState, fs: Fields, buf: string, from: nat, p: nat)
    requires p < |buf| <= 0xFFFF && HostSound(s, fs, buf, from, p) && !HostChar(s, buf[p]).Dead? && Inside(fs, |buf|)
    ensures HostLinked(s, fs) && Inside(HostMark(s, HostChar(s, buf[p]), fs, p), |buf|)
  {
    hide HostSound, HostChar, HostMark;
    MarkGrows(s, fs, buf, from, p);
  }

  lemma SameTwice(fs: Fields, gs: Fields, hs: Fields)
    requires SameOutside(fs, gs) && SameOutside(gs, hs)
    ensures SameOutside(fs, hs)
  {
  }

  lemma {:induction false} HostLeaveKeeps(s: HostState, fs: Fields, buf: string, from: nat, p: nat, end: nat)
    requires p <= end <= |buf| <= 0xFFFF && HostSound(s, fs, buf, from, p) && Inside(fs, |buf|)
    ensures HostLinked(s, fs)
    ensures
      var gs := HostLeave(s, fs, buf, p, end);
      Inside(gs, |buf|) && SameOutside(fs, gs)
    decreases end - p
  {
    hide HostSound, HostChar, HostMark, HostLinked, Inside, SameOutside;
    HostSoundLinks(s, fs, buf, from, p);
    SameNow(fs);
    if p < end && !HostChar(s, buf[p]).Dead? {
      var t := HostChar(s, buf[p]);
      var gs := HostMark(s, t, fs, p);
      RoundMeans(s, fs, buf, from, p);
      RoundInside(s, fs, buf, from, p);
      HostLeaveKeeps(t, gs, buf, from, p + 1, end);
      SameTwice(fs, gs, HostLeave(t, gs, buf, p + 1, end));
    }
  }

  lemma SameNow(fs: Fields)
    ensures SameOutside(fs, fs)
  {
  }

  lemma HostWrittenKeeps(buf: string, fs: Fields, foundAt: bool)
    requires |buf| <= 0xFFFF && Laid(fs, |buf|) && Host in fs && Userinfo !in fs && Port !in fs
    ensures End(fs[Host]) <= |buf| && Inside(HostWritten(buf, fs, foundAt), |buf|)
      && SameOutside(fs, HostWritten(buf, fs, foundAt))
  {
    var h := fs[Host];
    var zeroed := fs[Host := h.(len := 0)];
    assert Inside(zeroed, |buf|) && SameOutside(fs, zeroed);
    HostLeaveKeeps(if foundAt then UserinfoStart else HostStart, zeroed, buf, h.off, h.off, End(h));
    SameTwice(fs, zeroed, HostWritten(buf, fs, foundAt));
  }

  /** The fields that the printer knows. */
  predicate IsPart(f: UrlField) { f.Path? || f.Query? || f.Fragment? }

  /** What a call writes, accepted or not. */
  lemma WrittenMeans(buf: string, isConnect: bool)
    requires |buf| <= 0xFFFF
    ensures
      var fs := Written(buf, isConnect);
      Inside(fs, |buf|)
      && forall f :: f in fs && IsPart(f) ==> fs[f].len > 0 && Chars(f, buf, fs[f].off, End(fs[f]))
  {
    hide Take, Laid, Sound, SameOutside, Chars, HostWritten;
    var c := Start(isConnect);
    StartIsSound(isConnect);
    StartIsClean(isConnect, buf);
    LeaveClean(c, buf, 0);
    var d := Leave(c, buf, 0);
    if Split(c, buf, 0).Some? && Host in d.fields {
      LeaveSplits(c, buf, 0);
      SplitKeeps(c, buf, 0);
      SoundMeans(d, |buf|);
      HostWrittenKeeps(buf, d.fields, d.foundAt);
      PartsSame(d.fields, HostWritten(buf, d.fields, d.foundAt));
    }
  }

  lemma PartsSame(fs: Fields, gs: Fields)
    requires SameOutside(fs, gs)
    ensures forall f :: IsPart(f) ==> (f in fs <==> f in gs) && (f in fs ==> gs[f] == fs[f])
  {
  }

  lemma StartIsClean(isConnect: bool, buf: string)
    ensures Clean(Start(isConnect), buf, 0)
  {
  }

  /* ---- printed targets ------------------------------------------------- */

  /** What the owner is to be told of a printed target. */
  function Sent(path: string, query: string, fragment: string): Location {
    Location("", "", "", if path == "" then "/" else path, query, fragment, "")
  }

  lemma SubstrInside(s: string, fs: Fields, f: UrlField)
    requires f in fs && End(fs[f]) <= |s|
    ensures Substr(s, fs, f) == s[fs[f].off..End(fs[f])] && |Substr(s, fs, f)| == fs[f].len
  {
  }

  /** The text of a part that was read tells what its octets are. */
  lemma TextIsClean(s: string, fs: Fields, f: UrlField)
    requires f in fs ==> fs[f].len > 0 && End(fs[f]) <= |s| && Chars(f, s, fs[f].off, End(fs[f]))
    ensures Substr(s, fs, f) != "" ==>
      var x := Substr(s, fs, f);
      (f.Path? ==> IsPath(x)) && (f.Query? ==> IsQuery(x)) && (f.Fragment? ==> IsFragment(x))
  {
    hide IsUrlChar;
    if f in fs { SubstrInside(s, fs, f); }
  }

  /**
   A target that arrives in one fragment: the owner is told exactly the path, query
   and fragment that were printed if and only if they are legal.  Otherwise it is one of
   these that differs.
   */
  lemma WholeTarget(path: string, query: string, fragment: string)
    requires |Printed(path, query, fragment)| <= MAX_TARGET
    ensures
      var told := OnTarget(UNLOCATED, Printed(path, query, fragment)).told;
      && (told == Sent(path, query, fragment) <==> Legal(path, query, fragment))
      && (SameParts(told, Sent(path, query, fragment)) <==> Legal(path, query, fragment))
  {
    hide ParseUrl, Written, Printed, IsPath, IsQuery, IsFragment, Chars, Laid, Substr;
    var t := Printed(path, query, fragment);
    var fs := Written(t, false);
    assert "" + t == t && map[] + fs == fs;
    WrittenMeans(t, false);
    if ParseUrl(t, false).Some? {
      TextIsClean(t, fs, Path);
      TextIsClean(t, fs, Query);
      TextIsClean(t, fs, Fragment);
      if Legal(path, query, fragment) { PrintedIsTold(path, query, fragment); }
      NothingIsLegal();
    } else if Legal(path, query, fragment) {
      PrintedSplits(path, query, fragment);
    }
  }

  lemma NothingIsLegal()
    ensures IsQuery("") && IsFragment("")
  {
  }

  lemma PrintedIsTold(path: string, query: string, fragment: string)
    requires Legal(path, query, fragment) && |Printed(path, query, fragment)| <= MAX_TARGET
    ensures
      Texts(Printed(path, query, fragment), Written(Printed(path, query, fragment), false))
        == Sent(path, query, fragment)
  {
    hide ParseUrl, Written, Printed, Legal, Substr, Laid;
    var t := Printed(path, query, fragment);
    PrintedSplits(path, query, fragment);
    WrittenIsFields(t, false);
    var fs := Written(t, false);
    LaidBounds(fs, |t|);
    PartTexts(t, fs);
  }

  lemma PartTexts(s: string, fs: Fields)
    requires Path in fs && forall f :: f in fs ==> IsPart(f) && End(fs[f]) <= |s|
    ensures
      Texts(s, fs) == Location("", "", "", TextAt(s, fs[Path]), if Query in fs then TextAt(s, fs[Query]) else "",
                               if Fragment in fs then TextAt(s, fs[Fragment]) else "", "")
  {
  }

  /** They agree on what a printed target consists of. */
  predicate SameParts(a: Location, b: Location) { a.path == b.path && a.query == b.query && a.fragment == b.fragment }

  /** Where the last part of a printed target begins, and which it is. */
  function LastPart(query: string, fragment: string): UrlField {
    if fragment != "" then Fragment else if query != "" then Query else Path
  }

  function LastText(path: string, query: string, fragment: string): string {
    if fragment != "" then fragment else if query != "" then query else if path == "" then "/" else path
  }

  /** The part is the end of the target, and no mark of its kind stands further in front. */
  predicate IsEnd(t: string, x: UrlField, base: nat) {
    && base < |t| && IsPart(x) && (x.Path? ==> base == 0)
    && (x.Query? ==> forall k :: 0 <= k < |t| && t[k] == '?' ==> k + 1 >= base)
    && (x.Fragment? ==> forall k :: 0 <= k < |t| && t[k] == '#' ==> k + 1 >= base)
  }

  /** What stands behind the first mark of its kind. */
  lemma BehindMark(a: string, mark: char, s: string)
    requires s != "" && forall k :: 0 <= k < |a| ==> a[k] != mark
    ensures
      var t := a + ([mark] + s);
      |a| + 1 == |t| - |s| && forall k :: 0 <= k < |t| && t[k] == mark ==> k >= |a|
  {
  }

  lemma PrintedEnds(path: string, query: string, fragment: string)
    requires Legal(path, query, fragment)
    ensures
      var t, n := Printed(path, query, fragment), |LastText(path, query, fragment)|;
      n <= |t| && IsEnd(t, LastPart(query, fragment), |t| - n)
  {
    var shown := if path == "" then "/" else path;
    var front := if query == "" then shown else shown + ("?" + query);
    assert forall k :: 0 <= k < |shown| ==> shown[k] != '?' && shown[k] != '#';
    assert forall k :: 0 <= k < |front| ==> front[k] != '#';
    hide IsUrlChar, IsPath, IsQuery, IsFragment;
    if fragment != "" {
      BehindMark(front, '#', fragment);
      assert Printed(path, query, fragment) == front + (['#'] + fragment);
    } else if query != "" {
      BehindMark(shown, '?', query);
      assert Printed(path, query, fragment) == shown + (['?'] + query);
    }
  }

  function PartOf(l: Location, x: UrlField): string {
    match x
    case Path => l.path
    case Query => l.query
    case Fragment => l.fragment
    case _ => ""
  }

  /** The last part of the target has not been told, nor is it remembered. */
  predicate Lacks(l: Locator, t: string, x: UrlField, base: nat) {
    && base < |t| && |PartOf(l.told, x)| < |t| - base && (x in l.ranges ==> l.ranges[x].len < |t| - base)
    && l.target <= t
  }

  lemma SubstrShort(s: string, fs: Fields, x: UrlField)
    ensures |Substr(s, fs, x)| <= if x in fs then fs[x].len else 0
    ensures IsPart(x) ==> PartOf(Texts(s, fs), x) == Substr(s, fs, x)
  {
  }

  /** A fragment that is not the whole target does not bring it. */
  lemma FragmentShort(l: Locator, piece: string, t: string, x: UrlField, base: nat)
    requires |t| <= MAX_TARGET && IsEnd(t, x, base) && Lacks(l, t, x, base)
    requires piece != "" && l.target + piece <= t && (l.target + piece == t ==> l.connected)
    ensures
      var w := OnTarget(l, piece);
      && |PartOf(w.told, x)| < |t| - base && w.target == l.target + piece && w.connected
      && (l.target + piece != t ==> Lacks(w, t, x, base))
  {
    hide ParseUrl, Written, Texts, Substr;
    var a, fs := |l.target|, Written(piece, l.connected);
    WrittenMeans(piece, l.connected);
    assert forall k :: 0 <= k < |piece| ==> (l.target + piece)[a + k] == piece[k];
    SubstrShort(l.target + piece, l.ranges + fs, x);
    if ParseUrl(piece, l.connected).Some? && l.target + piece == t {
      WrittenIsFields(piece, true);
      ConnectFields(piece);
    }
  }

  lemma ConnectFields(s: string)
    requires ParseUrl(s, true).Some?
    ensures ParseUrl(s, true).value.fields.Keys == {Host, Port}
  {
    hide Decimal, DigitsUpTo, ParseHost, Split;
  }

  lemma {:induction false} FragmentsShort(l: Locator, pieces: seq<string>, t: string, x: UrlField, base: nat)
    requires |t| <= MAX_TARGET && IsEnd(t, x, base) && Lacks(l, t, x, base)
    requires l.target + Flatten(pieces) == t && (forall i :: 0 <= i < |pieces| ==> pieces[i] != "")
    requires l.connected || |pieces| > 1
    ensures |PartOf(OnTargets(l, pieces).told, x)| < |t| - base
    decreases |pieces|
  {
    hide OnTarget, PartOf, IsEnd;
    if pieces != [] {
      assert l.target + pieces[0] + Flatten(pieces[1..]) == t;
      if pieces[1..] == [] { assert Flatten([]) == ""; } else { NotAll(pieces[1..]); }
      FragmentShort(l, pieces[0], t, x, base);
      var w := OnTarget(l, pieces[0]);
      if pieces[1..] != [] { FragmentsShort(w, pieces[1..], t, x, base); }
    }
  }

  lemma NotAll(pieces: seq<string>)
    requires pieces != [] && pieces[0] != ""
    ensures Flatten(pieces) != ""
  {
  }

  /**
   A legal target that arrives in any fragments: the owner is told exactly what was
   printed if and only if there is only one.  Otherwise it is the path, the query or the
   fragment that differs.
   */
  lemma LegalTarget(pieces: seq<string>, path: string, query: string, fragment: string)
    requires Legal(path, query, fragment) && |Printed(path, query, fragment)| <= MAX_TARGET
    requires Flatten(pieces) == Printed(path, query, fragment) && forall i :: 0 <= i < |pieces| ==> pieces[i] != ""
    ensures
      var told := OnTargets(UNLOCATED, pieces).told;
      && (told == Sent(path, query, fragment) <==> |pieces| == 1)
      && (SameParts(told, Sent(path, query, fragment)) <==> |pieces| == 1)
  {
    hide Legal, OnTarget, Printed, IsEnd;
    var t := Printed(path, query, fragment);
    PrintedEnds(path, query, fragment);
    if |pieces| == 1 {
      assert pieces[1..] == [] && pieces[0] + "" == pieces[0];
      WholeTarget(path, query, fragment);
      assert OnTargets(UNLOCATED, pieces) == OnTargets(OnTarget(UNLOCATED, t), []);
    } else {
      var x, n := LastPart(query, fragment), |LastText(path, query, fragment)|;
      assert "" + t == t && "" <= t;
      FragmentsShort(UNLOCATED, pieces, t, x, |t| - n);
      assert PartOf(Sent(path, query, fragment), x) == LastText(path, query, fragment);
    }
  }

  /** A fragment but the first tells a host, or nothing. */
  lemma FragmentTellsHost(l: Locator, s: string)
    requires l.connected && |l.target + s| <= MAX_TARGET
    ensures
      var w := OnTarget(l, s);
      w.connected && (w.told == l.told || w.told.host != "")
  {
    hide ParseUrl, Written, Split, ParseHost, Laid;
    if ParseUrl(s, true).Some? {
      WrittenIsFields(s, true);
      ConnectFields(s);
      FieldsAreSound(s, true);
      var fs := Written(s, true);
      LaidHost(fs, |s|);
      var ranges, target := l.ranges + fs, l.target + s;
      assert ranges[Host] == fs[Host];
      SubstrInside(target, ranges, Host);
    }
  }

  lemma LaidHost(fs: Fields, limit: nat)
    requires Laid(fs, limit) && Host in fs
    ensures fs[Host].len > 0 && End(fs[Host]) <= limit
  {
  }

  lemma {:induction false} FragmentsTellHost(l: Locator, pieces: seq<string>)
    requires l.connected && |l.target + Flatten(pieces)| <= MAX_TARGET
    ensures OnTargets(l, pieces).told == l.told || OnTargets(l, pieces).told.host != ""
    decreases |pieces|
  {
    hide OnTarget;
    if pieces != [] {
      assert l.target + pieces[0] + Flatten(pieces[1..]) == l.target + Flatten(pieces);
      FragmentTellsHost(l, pieces[0]);
      TargetGrows(l, pieces[0]);
      FragmentsTellHost(OnTarget(l, pieces[0]), pieces[1..]);
    }
  }

  lemma TargetGrows(l: Locator, s: string)
    ensures OnTarget(l, s).target == l.target + s
  {
  }

  /** What the first fragment tells is legal. */
  lemma FirstTellsLegal(s: string)
    requires |s| <= MAX_TARGET
    ensures
      var told := OnTarget(UNLOCATED, s).told;
      told.path != "" ==> IsPath(told.path) && IsQuery(told.query) && IsFragment(told.fragment)
  {
    hide ParseUrl, Written, IsPath, IsQuery, IsFragment, Chars, Substr;
    var fs := Written(s, false);
    assert "" + s == s && map[] + fs == fs;
    WrittenMeans(s, false);
    TextIsClean(s, fs, Path);
    TextIsClean(s, fs, Query);
    TextIsClean(s, fs, Fragment);
    NothingIsLegal();
  }

  /**
   Any target in any fragments: the owner is told exactly what was printed if and only if
   there is only one fragment and the parts are legal.
   */
  lemma CutTarget(pieces: seq<string>, path: string, query: string, fragment: string)
    requires |Printed(path, query, fragment)| <= MAX_TARGET
    requires Flatten(pieces) == Printed(path, query, fragment) && forall i :: 0 <= i < |pieces| ==> pieces[i] != ""
    ensures
      OnTargets(UNLOCATED, pieces).told == Sent(path, query, fragment)
      <==> |pieces| == 1 && Legal(path, query, fragment)
  {
    hide OnTarget, Printed, IsPath, IsQuery, IsFragment;
    if Legal(path, query, fragment) {
      LegalTarget(pieces, path, query, fragment);
    } else {
      assert pieces != [] by { PrintedIsText(path, query, fragment); }
      var p := pieces[0];
      FirstTellsLegal(p);
      FirstConnects(p);
      assert "" + p + Flatten(pieces[1..]) == Flatten(pieces);
      TargetGrows(UNLOCATED, p);
      FragmentsTellHost(OnTarget(UNLOCATED, p), pieces[1..]);
    }
  }

  lemma FirstConnects(s: string)
    requires |s| <= MAX_TARGET
    ensures OnTarget(UNLOCATED, s).connected
  {
    assert "" + s == s;
  }

  lemma PrintedIsText(path: string, query: string, fragment: string)
    ensures Printed(path, query, fragment) != ""
  {
  }

  /* ---- two inputs that go wrong ----------------------------------------- */

  /** "/a/b", cut after "/a": the owner is told the path "/a". */
  lemma PathIsCut()
    ensures Legal("/a/b", "", "")
      && OnTargets(UNLOCATED, ["/a", "/b"]).told == Sent("/a", "", "") != Sent("/a/b", "", "")
  {
    hide ParseUrl, Written, Legal;
    assert Legal("/a/b", "", "") && Legal("/a", "", "") by { RootsAreLegal(); }
    WholeTarget("/a", "", "");
    PrintedPath("/a");
    SlashIsNoServer("/b", 0);
    var a := OnTarget(UNLOCATED, "/a");
    assert a.target + "/b" == "/a/b";
    assert ["/a", "/b"][1..] == ["/b"] && ["/b"][1..] == [];
    assert OnTargets(a, ["/b"]) == OnTargets(OnTarget(a, "/b"), []);
  }

  lemma RootsAreLegal()
    ensures Legal("/a/b", "", "") && Legal("/a", "", "")
  {
  }

  lemma PrintedPath(path: string)
    requires path != ""
    ensures Printed(path, "", "") == path
  {
  }

  lemma NoTarget()
    ensures ParseUrl("", true).None?
  {
  }

  /* ---- ordinary targets and those of CONNECT ---------------------------- */

  /** The states of a target that begins with a server. */
  predicate InServerRun(s: State) {
    s.ReqServerStart? || s.ReqServer? || s.ReqServerWithAt? || s.ReqPath? || s.ReqQueryStringStart? || s.ReqQueryString?
    || s.ReqFragmentStart? || s.ReqFragment?
  }

  lemma ServerRunStep(s: State, ch: char)
    requires InServerRun(s) && !ParseUrlChar(s, ch).Dead?
    ensures InServerRun(ParseUrlChar(s, ch))
    ensures ch == '/' ==> FieldOf(ParseUrlChar(s, ch)).Some? && IsPart(FieldOf(ParseUrlChar(s, ch)).value)
  {
    hide IsAlpha, IsUserinfoChar, IsUrlChar;
    assert IsUrlChar('/') by { SlashIsUrlChar(); }
  }

  lemma SlashIsUrlChar()
    ensures IsUrlChar('/')
  {
  }

  lemma {:induction false} SplitKeepsKeys(c: Cursor, buf: string, p: nat)
    requires WellLinked(c) && p <= |buf| && Split(c, buf, p).Some?
    ensures c.fields.Keys <= Split(c, buf, p).value.fields.Keys
    decreases |buf| - p
  {
    hide ParseUrlChar, FieldOf;
    if p < |buf| { SplitKeepsKeys(Take(c, p, buf[p]).value, buf, p + 1); }
  }

  /** A slash behind a server starts or prolongs another field. */
  lemma {:induction false} SlashFields(c: Cursor, buf: string, p: nat, k: nat) returns (x: UrlField)
    requires WellLinked(c) && InServerRun(c.s) && p <= k < |buf| && buf[k] == '/' && Split(c, buf, p).Some?
    ensures IsPart(x) && x in Split(c, buf, p).value.fields
    decreases |buf| - p
  {
    hide ParseUrlChar, FieldOf, InServerRun, IsPart;
    ServerRunStep(c.s, buf[p]);
    var d := Take(c, p, buf[p]).value;
    if p < k {
      x := SlashFields(d, buf, p + 1, k);
    } else {
      x := FieldOf(ParseUrlChar(c.s, buf[p])).value;
      SplitKeepsKeys(d, buf, p + 1);
    }
  }

  lemma SlashIsWritten(t: string, k: nat) returns (x: UrlField)
    requires k < |t| <= 0xFFFF && t[k] == '/'
    requires
      var r := Split(Start(true), t, 0);
      r.Some? && Host in r.value.fields
    ensures IsPart(x) && x in Written(t, true)
  {
    hide Take, Laid, Sound, Split, HostWritten;
    var c := Start(true);
    StartIsSound(true);
    var d := Split(c, t, 0).value;
    x := SlashFields(c, t, 0, k);
    LeaveSplits(c, t, 0);
    SplitKeeps(c, t, 0);
    SoundMeans(d, |t|);
    HostWrittenKeeps(t, d.fields, d.foundAt);
    PartsSame(d.fields, HostWritten(t, d.fields, d.foundAt));
  }

  lemma SlashIsNoServer(t: string, k: nat)
    requires k < |t| <= 0xFFFF && t[k] == '/'
    ensures ParseUrl(t, true).None?
  {
    hide Split, Written, ParseUrl, ParseHost;
    if ParseUrl(t, true).Some? {
      ServerSplits(t);
      WrittenIsFields(t, true);
      ConnectFields(t);
      var x := SlashIsWritten(t, k);
    }
  }

  lemma ServerSplits(t: string)
    requires ParseUrl(t, true).Some?
    ensures
      var r := Split(Start(true), t, 0);
      r.Some? && Host in r.value.fields && ParseHost(t, r.value.fields, r.value.foundAt).Some?
      && ParseHost(t, r.value.fields, r.value.foundAt).value == ParseUrl(t, true).value.fields
  {
    hide Decimal, DigitsUpTo, ParseHost, Split;
    ConnectFields(t);
  }

  lemma {:induction false} HostOffStays(c: Cursor, buf: string, p: nat)
    requires WellLinked(c) && Sound(c, p) && p <= |buf| <= 0xFFFF && Split(c, buf, p).Some? && Host in c.fields
    ensures
      var d := Split(c, buf, p).value;
      Host in d.fields && d.fields[Host].off == c.fields[Host].off && d.fields[Host].len > 0
    decreases |buf| - p
  {
    hide ParseUrlChar, FieldOf, Sound, Laid;
    if p < |buf| {
      TakeKeeps(c, p, buf[p]);
      TakeMeans(c, p, buf[p]);
      if FieldOf(ParseUrlChar(c.s, buf[p])).Some? { FieldGoesOn(c, p, buf[p]); }
      HostOffStays(Take(c, p, buf[p]).value, buf, p + 1);
    } else {
      HostIsThere(c, p);
    }
  }

  lemma HostIsThere(c: Cursor, p: nat)
    requires Sound(c, p) && Host in c.fields
    ensures c.fields[Host].len > 0
  {
  }

  lemma {:induction false} UserinfoStays(s: HostState, fs: Fields, buf: string, p: nat, end: nat)
    requires HostLinked(s, fs) && p <= end <= |buf| && HostRun(s, fs, buf, p, end).Some? && Userinfo in fs
    ensures Userinfo in HostRun(s, fs, buf, p, end).value.1
    decreases end - p
  {
    hide HostChar;
    if p < end {
      var t := HostChar(s, buf[p]);
      MarkLinks(s, t, fs, p);
      UserinfoStays(t, HostMark(s, t, fs, p), buf, p + 1, end);
    }
  }

  lemma StarIsNoServer(t: string)
    requires 0 < |t| <= 0xFFFF && t[0] == '*'
    ensures ParseUrl(t, true).None?
  {
    hide Split, HostRun, DigitsUpTo, Decimal;
    if ParseUrl(t, true).Some? {
      ServerSplits(t);
      ConnectFields(t);
      StartIsSound(true);
      StarStarts(t);
      var d := Split(Start(true), t, 0).value;
      var h := d.fields[Host];
      StarRuns(t, d.fields[Host := h.(len := 0)], h.len, d.foundAt);
    }
  }

  /** The server part begins with the star. */
  lemma StarStarts(t: string)
    requires 0 < |t| <= 0xFFFF && t[0] == '*' && Split(Start(true), t, 0).Some?
    ensures
      var d := Split(Start(true), t, 0).value;
      Host in d.fields && d.fields[Host].off == 0 && d.fields[Host].len > 0
  {
    hide Split;
    var c := Start(true);
    StartIsSound(true);
    SplitMeans(c, t, 0);
    TakeKeeps(c, 0, t[0]);
    HostOffStays(Take(c, 0, t[0]).value, t, 1);
  }

  lemma SplitMeans(c: Cursor, buf: string, p: nat)
    requires WellLinked(c) && p < |buf| && Split(c, buf, p).Some?
    ensures Take(c, p, buf[p]).Some? && Split(c, buf, p) == Split(Take(c, p, buf[p]).value, buf, p + 1)
  {
    hide Take;
  }

  /** It is no host name; as user information it shows. */
  lemma StarRuns(t: string, fs: Fields, end: nat, foundAt: bool)
    requires 0 < end <= |t| && t[0] == '*' && Host in fs
    ensures
      var r := HostRun(if foundAt then UserinfoStart else HostStart, fs, t, 0, end);
      r.Some? ==> Userinfo in r.value.1
  {
    var s := if foundAt then UserinfoStart else HostStart;
    var u := HostChar(s, t[0]);
    assert !foundAt ==> u.Dead?;
    if !u.Dead? && HostRun(s, fs, t, 0, end).Some? {
      assert u.InUserinfo?;
      MarkLinks(s, u, fs, 0);
      UserinfoStays(u, HostMark(s, u, fs, 0), t, 1, end);
    }
  }

  /** Nor is the target of a CONNECT ever told. */
  lemma ConnectIsNotTold(t: string)
    requires ParseUrl(t, true).Some? && |t| <= MAX_TARGET
    ensures OnTarget(UNLOCATED, t).told == NOWHERE
  {
    hide ParseUrl, Written;
    assert "" + t == t;
    if t == "" {
      assert ParseUrl("", true).None? by { NoTarget(); }
    } else if ParseUrl(t, false).Some? {
      var k := HasSlash(t);
      if t[k] == '/' { SlashIsNoServer(t, k); } else { StarIsNoServer(t); }
    }
  }

  /** For instance "h:1". */
  lemma ConnectExample()
    ensures ParseUrl("h:1", true).Some? && OnTarget(UNLOCATED, "h:1").told == NOWHERE
  {
    hide Written, OnTarget, ParseUrlChar, Split, ParseHost;
    var t := "h:1";
    ExampleSplits(t);
    ServerExample(t);
    assert t[2..DigitsUpTo(t, 2)] == "1" && "1"[..0] == "";
    assert Decimal("1") == 1;
    ConnectIsNotTold(t);
  }

  lemma ExampleChars()
    ensures ParseUrlChar(ReqServerStart, 'h') == ReqServer
    ensures ParseUrlChar(ReqServer, ':') == ReqServer && ParseUrlChar(ReqServer, '1') == ReqServer
  {
  }

  lemma ExampleSplits(t: string)
    requires t == "h:1"
    ensures Split(Start(true), t, 0) == Some(Cursor(ReqServer, Some(Host), map[Host := Range(0, 3)], false))
  {
    hide ParseUrlChar, Take, Split;
    ExampleChars();
    var a := Cursor(ReqServer, Some(Host), map[Host := Range(0, 1)], false);
    TakeMeans(Start(true), 0, 'h');
    SplitStep(Start(true), t, 0);
    Stays(a, t, 1, 3);
    assert Grown(a, 3) == Cursor(ReqServer, Some(Host), map[Host := Range(0, 3)], false);
    SplitEnds(Grown(a, 3), t);
  }

  lemma ServerExample(t: string)
    requires t == "h:1"
    ensures
      var fs := map[Host := Range(0, 3)];
      ParseHost(t, fs, false) == Some(map[Host := Range(0, 1), Port := Range(2, 1)])
  {
    var fs := map[Host := Range(0, 0)];
    var a, b := map[Host := Range(0, 1)], map[Host := Range(0, 1), Port := Range(2, 1)];
    assert HostChar(HostStart, t[0]) == InHost && HostMark(HostStart, InHost, fs, 0) == a;
    assert HostChar(InHost, t[1]) == PortStart && HostMark(InHost, PortStart, a, 1) == a;
    assert HostChar(PortStart, t[2]) == InPort && HostMark(PortStart, InPort, a, 2) == b;
    hide HostChar, HostMark;
    assert HostRun(HostStart, fs, t, 0, 3) == HostRun(InHost, a, t, 1, 3);
    assert HostRun(InHost, a, t, 1, 3) == HostRun(PortStart, a, t, 2, 3) == HostRun(InPort, b, t, 3, 3)
      == Some((InPort, b));
    assert map[Host := Range(0, 3)][Host := Range(0, 0)] == fs;
  }

  /** Without a slash an ordinary target does not get beyond its schema. */
  lemma {:induction false} StaysInSchema(c: Cursor, t: string, p: nat)
    requires WellLinked(c) && p <= |t| && (forall i :: 0 <= i < |t| ==> t[i] != '/') && (t != "" ==> t[0] != '*')
    requires if p == 0 then c == Start(false) else (c.s.ReqSchema? || c.s.ReqSchemaSlash?) && c.fields.Keys == {Schema}
    ensures t != "" && Split(c, t, p).Some? ==> Split(c, t, p).value.fields.Keys == {Schema}
    decreases |t| - p
  {
    hide IsAlpha, IsUserinfoChar, IsUrlChar;
    if p < |t| && Take(c, p, t[p]).Some? { StaysInSchema(Take(c, p, t[p]).value, t, p + 1); }
  }

  /** Whatever is split as an ordinary target has a slash in it, or begins with a star. */
  lemma HasSlash(t: string) returns (k: nat)
    requires t != "" && ParseUrl(t, false).Some?
    ensures k < |t| && (t[k] == '/' || (k == 0 && t[0] == '*'))
  {
    hide Split, ParseHost, Decimal, DigitsUpTo;
    if !exists i :: 0 <= i < |t| && (t[i] == '/' || (i == 0 && t[0] == '*')) { StaysInSchema(Start(false), t, 0); }
    k :| 0 <= k < |t| && (t[k] == '/' || (k == 0 && t[0] == '*'));
  }
}
