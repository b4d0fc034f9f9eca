/** `http_parser_parse_url`: the parts of a request target (section 3 of RFC 3986). */
module UrlParser {
  import opened Ascii
  import opened Numerals
  import opened ParserTypes
  import opened ParserStep

  datatype UrlField = Schema | Userinfo | Host | Port | Path | Query | Fragment

  /** Offset and length are kept in 16 bits. */
  datatype Range = Range(off: nat, len: nat)

  type Fields = map<UrlField, Range>

  datatype Url = Url(fields: Fields, port: nat)

  function U16(n: nat): nat { n % 0x1_0000 }

  /** One more octet for a field. */
  function Longer(r: Range): Range { r.(len := U16(r.len + 1)) }

  /* ---- the target as a whole ------------------------------------------ */

  /** The field that a state adds to; delimiters belong to none. */
  function FieldOf(s: State): Option<UrlField> {
    if s.ReqSchema? then Some(Schema)
    else if s.ReqServer? || s.ReqServerWithAt? then Some(Host)
    else if s.ReqPath? then Some(Path)
    else if s.ReqQueryString? then Some(Query)
    else if s.ReqFragment? then Some(Fragment)
    else None
  }

  /** The local variables of the loop, and the fields set so far. */
  datatype Cursor = Cursor(s: State, last: Option<UrlField>, fields: Fields, foundAt: bool)

  function Start(isConnect: bool): Cursor {
    Cursor(if isConnect then ReqServerStart else ReqSpacesBeforeUrl, None, map[], false)
  }

  predicate WellLinked(c: Cursor) { c.last.Some? ==> c.last.value in c.fields }

  /** One round of the loop. */
  function Take(c: Cursor, p: nat, ch: char): (r: Option<Cursor>)
    requires WellLinked(c)
    ensures r.Some? ==> WellLinked(r.value)
  {
    var s := ParseUrlChar(c.s, ch);
    if s.Dead? then None
    else
      match FieldOf(s)
      case None => Some(c.(s := s))
      case Some(f) =>
        Some(Cursor(s, Some(f),
                    c.fields[f := if c.last == Some(f) then Longer(c.fields[f]) else Range(U16(p), 1)],
                    c.foundAt || s.ReqServerWithAt?))
  }

  function Split(c: Cursor, buf: string, p: nat): (r: Option<Cursor>)
    requires WellLinked(c) && p <= |buf|
    ensures r.Some? ==> WellLinked(r.value)
    decreases |buf| - p
  {
    if p == |buf| then Some(c)
    else
      var r := Take(c, p, buf[p]);
      if r.None? then None else Split(r.value, buf, p + 1)
  }

  /* ---- the server part ------------------------------------------------- */

  datatype HostState =
    | Dead | UserinfoStart | InUserinfo | HostStart | V6Start | InHost | V6 | V6End | ZoneStart | Zone | PortStart
    | InPort

  /** `http_parse_host_char` */
  function HostChar(s: HostState, ch: char): HostState {
    match s
    case UserinfoStart => if ch == '@' then HostStart else if IsUserinfoChar(ch) then InUserinfo else HostState.Dead
    case InUserinfo => if ch == '@' then HostStart else if IsUserinfoChar(ch) then InUserinfo else HostState.Dead
    case HostStart => if ch == '[' then V6Start else if IsHostChar(ch) then InHost else HostState.Dead
    case InHost => if IsHostChar(ch) then InHost else if ch == ':' then PortStart else HostState.Dead
    case V6End => if ch == ':' then PortStart else HostState.Dead
    case V6 =>
      if ch == ']' then V6End else if IsHex(ch) || ch == ':' || ch == '.' then V6
      else if ch == '%' then ZoneStart else HostState.Dead
    case V6Start => if IsHex(ch) || ch == ':' || ch == '.' then V6 else HostState.Dead
    case Zone => if ch == ']' then V6End else if IsZoneChar(ch) then Zone else HostState.Dead
    case ZoneStart => if IsZoneChar(ch) then Zone else HostState.Dead
    case PortStart => if IsNum(ch) then InPort else HostState.Dead
    case InPort => if IsNum(ch) then InPort else HostState.Dead
    case Dead => HostState.Dead
  }

  predicate IsZoneChar(ch: char) { IsAlpha(ch) || IsNum(ch) || ch in "%.-_~" }

  /** How a step from `s` to `t` at `p` changes the three fields of the server part. */
  function HostMark(s: HostState, t: HostState, fs: Fields, p: nat): (r: Fields)
    requires Host in fs && (t.InPort? && s.InPort? ==> Port in fs)
      && (t.InUserinfo? && s.InUserinfo? ==> Userinfo in fs)
    ensures Host in r
  {
    match t
    case InHost => fs[Host := Longer(if s.InHost? then fs[Host] else fs[Host].(off := U16(p)))]
    case V6 => fs[Host := Longer(if s.V6? then fs[Host] else fs[Host].(off := U16(p)))]
    case ZoneStart => fs[Host := Longer(fs[Host])]
    case Zone => fs[Host := Longer(fs[Host])]
    case InPort => fs[Port := Longer(if s.InPort? then fs[Port] else Range(U16(p), 0))]
    case InUserinfo => fs[Userinfo := Longer(if s.InUserinfo? then fs[Userinfo] else Range(U16(p), 0))]
    case _ => fs
  }

  predicate HostLinked(s: HostState, fs: Fields) {
    Host in fs && (s.InPort? ==> Port in fs) && (s.InUserinfo? ==> Userinfo in fs)
  }

  /** The loop of `http_parse_host`, up to `end`. */
  function HostRun(s: HostState, fs: Fields, buf: string, p: nat, end: nat): (r: Option<(HostState, Fields)>)
    requires HostLinked(s, fs) && p <= end <= |buf|
    ensures r.Some? ==> HostLinked(r.value.0, r.value.1)
    decreases end - p
  {
    if p == end then Some((s, fs))
    else
      var t := HostChar(s, buf[p]);
      if t.Dead? then None else HostRun(t, HostMark(s, t, fs, p), buf, p + 1, end)
  }

  /** The states in which the server part may end. */
  predicate HostEnds(s: HostState) { s.InHost? || s.V6End? || s.InPort? }

  /** `http_parse_host` */
  function ParseHost(buf: string, fs: Fields, foundAt: bool): (r: Option<Fields>)
    requires Host in fs && fs[Host].off + fs[Host].len <= |buf|
    ensures r.Some? ==> Host in r.value
  {
    var h := fs[Host];
    var r := HostRun(if foundAt then UserinfoStart else HostStart, fs[Host := h.(len := 0)], buf, h.off, h.off + h.len);
    if r.None? || !HostEnds(r.value.0) then None else Some(r.value.1)
  }

  /** Where the digits at `i` end; `strtoul` reads that far. */
  function DigitsUpTo(buf: string, i: nat): (e: nat)
    requires i <= |buf|
    ensures i <= e <= |buf| && IsDigits(buf[i..e]) && (e < |buf| ==> !IsNum(buf[e]))
    decreases |buf| - i
  {
    if i < |buf| && IsNum(buf[i]) then
      var e := DigitsUpTo(buf, i + 1);
      assert forall k :: 0 < k < e - i ==> buf[i..e][k] == buf[i + 1..e][k - 1];
      e
    else i
  }

  /* ---- what the fields are --------------------------------------------- */

  function Rank(f: UrlField): nat {
    match f
    case Schema => 0 case Userinfo => 1 case Host => 2 case Port => 3 case Path => 4 case Query => 5 case Fragment => 6
  }

  function End(r: Range): nat { r.off + r.len }

  /** Non-empty, before `limit`, in order and apart from one another. */
  predicate Laid(fs: Fields, limit: nat) {
    && (forall f :: f in fs ==> fs[f].len > 0 && End(fs[f]) <= limit)
    && (forall f, g :: f in fs && g in fs && Rank(f) < Rank(g) ==> End(fs[f]) <= fs[g].off)
  }

  /** The highest field that a run in state `s` can have set. */
  function Reached(s: State): int {
    if s.ReqSchema? || s.ReqSchemaSlash? || s.ReqSchemaSlashSlash? || s.ReqServerStart? then 0
    else if s.ReqServer? || s.ReqServerWithAt? then 2
    else if s.ReqPath? || s.ReqQueryStringStart? then 4
    else if s.ReqQueryString? || s.ReqFragmentStart? then 5
    else if s.ReqFragment? then 6 else -1
  }

  /** What every round of the loop keeps, after `p` octets. */
  predicate Sound(c: Cursor, p: nat) {
    && WellLinked(c) && Laid(c.fields, p) && Userinfo !in c.fields && Port !in c.fields
    && (forall f :: f in c.fields ==> Rank(f) <= Reached(c.s) && (c.last.Some? ==> Rank(f) <= Rank(c.last.value)))
    && (FieldOf(c.s).Some? ==> c.last == FieldOf(c.s) && End(c.fields[c.last.value]) == p)
    && (c.s.ReqServerWithAt? ==> c.foundAt)
  }

  /** The states of a target only move on: a field that is left is never entered again. */
  lemma StatesMoveOn(s: State, ch: char)
    ensures
      var t := ParseUrlChar(s, ch);
      !t.Dead? ==>
        && Reached(s) <= Reached(t)
        && (FieldOf(t).Some? ==>
              && Rank(FieldOf(t).value) == Reached(t) && FieldOf(t).value.Userinfo? == FieldOf(t).value.Port? == false
              && (FieldOf(s) == FieldOf(t) || Reached(s) < Reached(t)))
        && (t.ReqServerWithAt? ==> FieldOf(t) == Some(Host))
  {
    hide IsAlpha, IsUserinfoChar, IsUrlChar;
  }

  lemma TakeKeeps(c: Cursor, p: nat, ch: char)
    requires Sound(c, p) && p < 0xFFFF && Take(c, p, ch).Some?
    ensures Sound(Take(c, p, ch).value, p + 1)
  {
    hide ParseUrlChar, Reached, FieldOf, Rank;
    StatesMoveOn(c.s, ch);
    var d := Take(c, p, ch).value;
    if FieldOf(d.s).Some? {
      var f := FieldOf(d.s).value;
      if c.last != Some(f) { assert f !in c.fields; }
      FieldsKeep(c.fields, f, d.fields[f], p);
    }
  }

  /** The last field grows, or a new one is set behind the others. */
  lemma FieldsKeep(fs: Fields, f: UrlField, r: Range, p: nat)
    requires Laid(fs, p) && End(r) == p + 1 && r.len > 0
    requires forall g :: g in fs ==> Rank(g) <= Rank(f)
    requires if f in fs then r.off == fs[f].off else r.off == p
    ensures Laid(fs[f := r], p + 1)
  {
    hide Rank;
    DistinctRanks();
  }

  lemma DistinctRanks()
    ensures forall f, g :: Rank(f) == Rank(g) ==> f == g
  {
  }

  lemma {:induction false} SplitKeeps(c: Cursor, buf: string, p: nat)
    requires WellLinked(c) && Sound(c, p) && p <= |buf| <= 0xFFFF && Split(c, buf, p).Some?
    ensures Sound(Split(c, buf, p).value, |buf|)
    decreases |buf| - p
  {
    hide Take, Sound;
    if p < |buf| {
      TakeKeeps(c, p, buf[p]);
      SplitKeeps(Take(c, p, buf[p]).value, buf, p + 1);
    }
  }

  /* ---- what the server part is ------------------------------------------ */

  /** Before the host name, inside it, and after it. */
  predicate BeforeHost(s: HostState) { s.UserinfoStart? || s.InUserinfo? || s.HostStart? || s.V6Start? }

  predicate InsideHost(s: HostState) { s.InHost? || s.V6? || s.ZoneStart? || s.Zone? }

  predicate Within(r: Range, from: nat, to: nat) { r.len > 0 && from <= r.off && End(r) <= to }

  /** What every round of the loop over the server part keeps, from `from` to `p`. */
  predicate HostSound(s: HostState, fs: Fields, buf: string, from: nat, p: nat)
    requires p <= |buf|
  {
    && HostLinked(s, fs) && !s.Dead? && from <= p
    && (s.UserinfoStart? ==> Userinfo !in fs)
    && (Userinfo in fs ==> Within(fs[Userinfo], from, p))
    && (s.InUserinfo? ==> End(fs[Userinfo]) == p)
    && (if BeforeHost(s) then fs[Host].len == 0
        else Within(fs[Host], if Userinfo in fs then End(fs[Userinfo]) else from, p))
    && (InsideHost(s) ==> End(fs[Host]) == p)
    && (Port in fs <==> s.InPort?)
    && (s.InPort? ==> Within(fs[Port], End(fs[Host]), p) && End(fs[Port]) == p && IsDigits(buf[fs[Port].off..p]))
  }

  /** The fields outside the server part are left alone. */
  predicate SameOutside(fs: Fields, gs: Fields) {
    && (Schema in fs <==> Schema in gs) && (Path in fs <==> Path in gs)
    && (Query in fs <==> Query in gs) && (Fragment in fs <==> Fragment in gs)
    && (Schema in fs ==> gs[Schema] == fs[Schema]) && (Path in fs ==> gs[Path] == fs[Path])
    && (Query in fs ==> gs[Query] == fs[Query]) && (Fragment in fs ==> gs[Fragment] == fs[Fragment])
  }

  /** A round keeps everything. */
  predicate RoundKeeps(s: HostState, fs: Fields, buf: string, from: nat, p: nat)
    requires p < |buf| && HostLinked(s, fs)
  {
    var t := HostChar(s, buf[p]);
    var gs := HostMark(s, t, fs, p);
    HostSound(t, gs, buf, from, p + 1) && SameOutside(fs, gs)
  }

  lemma HostKeeps(s: HostState, fs: Fields, buf: string, from: nat, p: nat)
    requires p < |buf| <= 0xFFFF && HostSound(s, fs, buf, from, p) && !HostChar(s, buf[p]).Dead?
    ensures HostLinked(s, fs) && RoundKeeps(s, fs, buf, from, p)
  {
    hide RoundKeeps, HostSound, HostChar, HostLinked;
    HostSoundLinks(s, fs, buf, from, p);
    var t := HostChar(s, buf[p]);
    if t.InPort? { PortKeeps(s, fs, buf, from, p); }
    else if t.InUserinfo? || BeforeHost(t) { StartKeeps(s, fs, buf, from, p); }
    else { NameKeeps(s, fs, buf, from, p); }
  }

  lemma StartKeeps(s: HostState, fs: Fields, buf: string, from: nat, p: nat)
    requires p < |buf| <= 0xFFFF && HostSound(s, fs, buf, from, p) && BeforeHost(HostChar(s, buf[p]))
    ensures RoundKeeps(s, fs, buf, from, p)
  {
    hide IsHostChar, IsUserinfoChar, IsHex, IsZoneChar, IsDigits, IsNum;
  }

  lemma NameKeeps(s: HostState, fs: Fields, buf: string, from: nat, p: nat)
    requires p < |buf| <= 0xFFFF && HostSound(s, fs, buf, from, p) && !HostChar(s, buf[p]).Dead?
    requires !BeforeHost(HostChar(s, buf[p])) && !HostChar(s, buf[p]).InPort?
    ensures RoundKeeps(s, fs, buf, from, p)
  {
    hide IsHostChar, IsUserinfoChar, IsHex, IsZoneChar, IsDigits, IsNum;
  }

  lemma PortKeeps(s: HostState, fs: Fields, buf: string, from: nat, p: nat)
    requires p < |buf| <= 0xFFFF && HostSound(s, fs, buf, from, p) && HostChar(s, buf[p]).InPort?
    ensures RoundKeeps(s, fs, buf, from, p)
  {
    hide IsHostChar, IsUserinfoChar, IsHex, IsZoneChar, IsDigits;
    if s.InPort? {
      DigitsMore(buf, fs[Port].off, p);
    } else {
      assert buf[p..p] == "";
      NoDigits();
      DigitsMore(buf, p, p);
    }
  }

  lemma NoDigits()
    ensures IsDigits("")
  {
  }

  lemma DigitsMore(buf: string, i: nat, p: nat)
    requires i <= p < |buf| && IsDigits(buf[i..p]) && IsNum(buf[p])
    ensures IsDigits(buf[i..p + 1])
  {
    var t := buf[i..p + 1];
    assert forall k :: 0 <= k < |t| ==> t[k] == if k < p - i then buf[i..p][k] else buf[p];
  }

  lemma RoundMeans(s: HostState, fs: Fields, buf: string, from: nat, p: nat)
    requires p < |buf| <= 0xFFFF && HostSound(s, fs, buf, from, p)
    ensures
      var t := HostChar(s, buf[p]);
      !t.Dead? ==> HostSound(t, HostMark(s, t, fs, p), buf, from, p + 1) && SameOutside(fs, HostMark(s, t, fs, p))
  {
    hide HostSound, HostChar, HostMark, HostLinked, SameOutside;
    HostSoundLinks(s, fs, buf, from, p);
    if !HostChar(s, buf[p]).Dead? { HostKeeps(s, fs, buf, from, p); }
  }

  lemma {:induction false} HostRunKeeps(s: HostState, fs: Fields, buf: string, from: nat, p: nat, end: nat)
    requires p <= end <= |buf| <= 0xFFFF && HostSound(s, fs, buf, from, p) && HostRun(s, fs, buf, p, end).Some?
    ensures
      var (t, gs) := HostRun(s, fs, buf, p, end).value;
      HostSound(t, gs, buf, from, end) && SameOutside(fs, gs)
    decreases end - p
  {
    hide HostSound, HostChar, HostMark, HostLinked;
    if p < end { RoundMeans(s, fs, buf, from, p); }
    HostSoundLinks(s, fs, buf, from, p);
    if p < end {
      var t := HostChar(s, buf[p]);
      HostSoundLinks(t, HostMark(s, t, fs, p), buf, from, p + 1);
      HostRunKeeps(t, HostMark(s, t, fs, p), buf, from, p + 1, end);
    }
  }

  lemma HostSoundLinks(s: HostState, fs: Fields, buf: string, from: nat, p: nat)
    requires p <= |buf| && HostSound(s, fs, buf, from, p)
    ensures HostLinked(s, fs)
    ensures Host in fs && (s.InPort? ==> Port in fs) && (s.InUserinfo? ==> Userinfo in fs)
  {
  }

  /** The server part is replaced by its own parts, and the port is all digits. */
  lemma ParseHostKeeps(buf: string, fs: Fields, foundAt: bool)
    requires |buf| <= 0xFFFF && Laid(fs, |buf|) && Host in fs && Userinfo !in fs && Port !in fs
    requires ParseHost(buf, fs, foundAt).Some?
    ensures
      var gs := ParseHost(buf, fs, foundAt).value;
      && Laid(gs, |buf|) && Host in gs
      && (Port in gs ==> IsDigits(buf[gs[Port].off..End(gs[Port])]) && End(gs[Port]) == End(fs[Host]))
  {
    var h := fs[Host];
    var s := if foundAt then UserinfoStart else HostStart;
    var zeroed := fs[Host := h.(len := 0)];
    HostRunKeeps(s, zeroed, buf, h.off, h.off, End(h));
    var (t, gs) := HostRun(s, zeroed, buf, h.off, End(h)).value;
    ServerParts(fs, gs, |buf|);
    hide Laid;
  }

  lemma ServerParts(fs: Fields, gs: Fields, limit: nat)
    requires Laid(fs, limit) && Host in fs && Userinfo !in fs && Port !in fs && Host in gs
    requires SameOutside(fs, gs)
    requires Userinfo in gs ==> Within(gs[Userinfo], fs[Host].off, gs[Host].off)
    requires Within(gs[Host], fs[Host].off, End(fs[Host]))
    requires Port in gs ==> Within(gs[Port], End(gs[Host]), End(fs[Host]))
    ensures Laid(gs, limit)
  {
    assert End(fs[Host]) <= limit;
    forall f | f in gs ensures gs[f].len > 0 && End(gs[f]) <= limit {
      if !f.Userinfo? && !f.Host? && !f.Port? {
        assert f == Schema || f == Path || f == Query || f == Fragment;
        assert f in fs && gs[f] == fs[f];
      }
    }
    forall f, g | f in gs && g in gs && Rank(f) < Rank(g) ensures End(gs[f]) <= gs[g].off {
      PartsInOrder(fs, gs, limit, f, g);
    }
  }

  lemma PartsInOrder(fs: Fields, gs: Fields, limit: nat, f: UrlField, g: UrlField)
    requires Laid(fs, limit) && Host in fs && Userinfo !in fs && Port !in fs && Host in gs
    requires SameOutside(fs, gs)
    requires Userinfo in gs ==> Within(gs[Userinfo], fs[Host].off, gs[Host].off)
    requires Within(gs[Host], fs[Host].off, End(fs[Host]))
    requires Port in gs ==> Within(gs[Port], End(gs[Host]), End(fs[Host]))
    requires f in gs && g in gs && Rank(f) < Rank(g)
    ensures End(gs[f]) <= gs[g].off
  {
    var fServer, gServer := f.Userinfo? || f.Host? || f.Port?, g.Userinfo? || g.Host? || g.Port?;
    if !fServer {
      assert f == Schema || f == Path || f == Query || f == Fragment;
      assert Rank(f) < Rank(Host) ==> End(fs[f]) <= fs[Host].off;
    }
    if !gServer {
      assert g == Schema || g == Path || g == Query || g == Fragment;
      assert Rank(Host) < Rank(g) ==> End(fs[Host]) <= fs[g].off;
    }
    if !fServer && !gServer { assert End(fs[f]) <= fs[g].off; }
  }

  /* ---- what lies between the fields ------------------------------------- */

  predicate IsDelimiter(ch: char) { ch in ":/@[]?#" }

  predicate Covers(fs: Fields, k: nat) { exists f :: f in fs && fs[f].off <= k < End(fs[f]) }

  /** Every octet from `from` to `to` belongs to a field or is a delimiter. */
  predicate Filled(fs: Fields, buf: string, from: nat, to: nat)
    requires to <= |buf|
  {
    forall k | from <= k < to :: Covers(fs, k) || IsDelimiter(buf[k])
  }

  /** A field that is set or grows loses nothing. */
  lemma CoversMore(fs: Fields, f: UrlField, r: Range, k: nat)
    requires f in fs && fs[f].len > 0 ==> r.off == fs[f].off && End(fs[f]) <= End(r)
    ensures Covers(fs, k) ==> Covers(fs[f := r], k)
    ensures r.off <= k < End(r) ==> Covers(fs[f := r], k)
  {
    var gs := fs[f := r];
    assert f in gs && gs[f] == r;
    if Covers(fs, k) {
      var g :| g in fs && fs[g].off <= k < End(fs[g]);
      assert g in gs && gs[g].off <= k < End(gs[g]);
    }
  }

  lemma FilledMore(fs: Fields, f: UrlField, r: Range, buf: string, from: nat, p: nat)
    requires p < |buf| && Filled(fs, buf, from, p) && r.off <= p && End(r) == p + 1
    requires f in fs && fs[f].len > 0 ==> r.off == fs[f].off && End(fs[f]) <= End(r)
    ensures Filled(fs[f := r], buf, from, p + 1)
  {
    forall k | from <= k < p + 1 ensures Covers(fs[f := r], k) || IsDelimiter(buf[k]) { CoversMore(fs, f, r, k); }
  }

  /** The states that belong to no field are entered on delimiters. */
  lemma BetweenFields(s: State, ch: char)
    ensures !ParseUrlChar(s, ch).Dead? && FieldOf(ParseUrlChar(s, ch)).None? ==> IsDelimiter(ch)
  {
    hide IsAlpha, IsUserinfoChar, IsUrlChar;
  }

  lemma TakeFills(c: Cursor, buf: string, p: nat)
    requires Sound(c, p) && p < |buf| <= 0xFFFF && Take(c, p, buf[p]).Some? && Filled(c.fields, buf, 0, p)
    ensures Filled(Take(c, p, buf[p]).value.fields, buf, 0, p + 1)
  {
    hide ParseUrlChar, Reached, FieldOf, Rank, Filled, IsDelimiter;
    StatesMoveOn(c.s, buf[p]);
    BetweenFields(c.s, buf[p]);
    var d := Take(c, p, buf[p]).value;
    if FieldOf(d.s).Some? {
      var f := FieldOf(d.s).value;
      if c.last != Some(f) { assert f !in c.fields; }
      FilledMore(c.fields, f, d.fields[f], buf, 0, p);
    } else {
      FilledDelimiter(c.fields, buf, 0, p);
    }
  }

  lemma FilledDelimiter(fs: Fields, buf: string, from: nat, p: nat)
    requires p < |buf| && Filled(fs, buf, from, p) && IsDelimiter(buf[p])
    ensures Filled(fs, buf, from, p + 1)
  {
  }

  lemma {:induction false} SplitFills(c: Cursor, buf: string, p: nat)
    requires WellLinked(c) && Sound(c, p) && p <= |buf| <= 0xFFFF && Split(c, buf, p).Some?
      && Filled(c.fields, buf, 0, p)
    ensures Filled(Split(c, buf, p).value.fields, buf, 0, |buf|)
    decreases |buf| - p
  {
    hide Take, Sound, Filled;
    if p < |buf| {
      TakeKeeps(c, p, buf[p]);
      TakeFills(c, buf, p);
      SplitFills(Take(c, p, buf[p]).value, buf, p + 1);
    }
  }

  /** Nor does the server part hold anything else than its parts and delimiters. */
  lemma HostDelimiters(s: HostState, ch: char)
    ensures
      var t := HostChar(s, ch);
      t.HostStart? || t.V6Start? || t.V6End? || t.PortStart? ==> IsDelimiter(ch)
    ensures !HostChar(s, ch).UserinfoStart?
  {
    hide IsHostChar, IsUserinfoChar, IsHex, IsZoneChar;
  }

  /** Which part a round adds to, if any. */
  function PartOf(t: HostState): Option<UrlField> {
    if t.InHost? || t.V6? || t.ZoneStart? || t.Zone? then Some(Host)
    else if t.InPort? then Some(Port) else if t.InUserinfo? then Some(Userinfo) else None
  }

  lemma MarkGrows(s: HostState, fs: Fields, buf: string, from: nat, p: nat)
    requires p < |buf| <= 0xFFFF && HostSound(s, fs, buf, from, p) && !HostChar(s, buf[p]).Dead?
    ensures HostLinked(s, fs)
    ensures
      var t := HostChar(s, buf[p]);
      var f := PartOf(t);
      var gs := HostMark(s, t, fs, p);
      if f.None? then gs == fs
      else
        && f.value in gs && gs == fs[f.value := gs[f.value]] && gs[f.value].off <= p && End(gs[f.value]) == p + 1
        && (f.value in fs && fs[f.value].len > 0 ==>
              gs[f.value].off == fs[f.value].off && End(fs[f.value]) <= End(gs[f.value]))
  {
    hide IsHostChar, IsUserinfoChar, IsHex, IsZoneChar, IsDigits, IsNum;
  }

  lemma RoundFills(s: HostState, fs: Fields, buf: string, from: nat, p: nat)
    requires p < |buf| <= 0xFFFF && HostSound(s, fs, buf, from, p) && !HostChar(s, buf[p]).Dead?
      && Filled(fs, buf, from, p)
    ensures HostLinked(s, fs) && Filled(HostMark(s, HostChar(s, buf[p]), fs, p), buf, from, p + 1)
  {
    hide HostSound, HostChar, HostMark, HostLinked, Filled, IsDelimiter;
    HostSoundLinks(s, fs, buf, from, p);
    MarkGrows(s, fs, buf, from, p);
    HostDelimiters(s, buf[p]);
    var t := HostChar(s, buf[p]);
    if PartOf(t).Some? {
      var f := PartOf(t).value;
      FilledMore(fs, f, HostMark(s, t, fs, p)[f], buf, from, p);
    } else {
      FilledDelimiter(fs, buf, from, p);
    }
  }

  lemma {:induction false} HostRunFills(s: HostState, fs: Fields, buf: string, from: nat, p: nat, end: nat)
    requires p <= end <= |buf| <= 0xFFFF && HostSound(s, fs, buf, from, p) && Filled(fs, buf, from, p)
    requires HostLinked(s, fs) && HostRun(s, fs, buf, p, end).Some?
    ensures Filled(HostRun(s, fs, buf, p, end).value.1, buf, from, end)
    decreases end - p
  {
    hide HostSound, HostChar, HostMark, HostLinked, Filled;
    if p < end {
      var t := HostChar(s, buf[p]);
      RoundMeans(s, fs, buf, from, p);
      RoundFills(s, fs, buf, from, p);
      HostSoundLinks(s, fs, buf, from, p);
      HostSoundLinks(t, HostMark(s, t, fs, p), buf, from, p + 1);
      HostRunFills(t, HostMark(s, t, fs, p), buf, from, p + 1, end);
    }
  }

  lemma ParseHostFills(buf: string, fs: Fields, foundAt: bool)
    requires |buf| <= 0xFFFF && Laid(fs, |buf|) && Host in fs && Userinfo !in fs && Port !in fs
    requires ParseHost(buf, fs, foundAt).Some? && Filled(fs, buf, 0, |buf|)
    ensures Filled(ParseHost(buf, fs, foundAt).value, buf, 0, |buf|)
  {
    var h := fs[Host];
    var s := if foundAt then UserinfoStart else HostStart;
    var zeroed := fs[Host := h.(len := 0)];
    HostRunKeeps(s, zeroed, buf, h.off, h.off, End(h));
    HostRunFills(s, zeroed, buf, h.off, h.off, End(h));
    var gs := HostRun(s, zeroed, buf, h.off, End(h)).value.1;
    hide Laid, HostRun, HostSound;
    forall k | 0 <= k < |buf| ensures Covers(gs, k) || IsDelimiter(buf[k]) {
      if !(h.off <= k < End(h)) && Covers(fs, k) {
        var f :| f in fs && fs[f].off <= k < End(fs[f]);
        assert f == Schema || f == Path || f == Query || f == Fragment by {
          assert !f.Host? && !f.Userinfo? && !f.Port?;
        }
        assert f in gs && gs[f] == fs[f];
      }
    }
  }

  /* ---- the whole function ----------------------------------------------- */

  /** `http_parser_parse_url`, for a buffer that no digit follows. */
  function ParseUrl(buf: string, isConnect: bool): Option<Url> {
    var r := Split(Start(isConnect), buf, 0);
    if r.None? || (Schema in r.value.fields && Host !in r.value.fields) then None
    else if Host in r.value.fields && End(r.value.fields[Host]) > |buf| then None   // only when an offset has wrapped
    else
      var fs :=
        if Host in r.value.fields then ParseHost(buf, r.value.fields, r.value.foundAt)
        else Some(r.value.fields);
      if fs.None? || (isConnect && fs.value.Keys != {Host, Port}) then None
      else if Port !in fs.value then Some(Url.Url(fs.value, 0))
      else
        var off := Bounded(fs.value[Port].off, |buf|);
        var v := Decimal(buf[off..DigitsUpTo(buf, off)]);
        if v > 0xffff then None else Some(Url.Url(fs.value, v))
  }

  function Bounded(off: nat, n: nat): nat { if off <= n then off else n }

  /**
   Whenever a target of at most 65535 octets is accepted, its fields are non-empty,
   in bounds, in order and pairwise disjoint, only delimiters lie between them, and
   the port is the value of its field.
   */
  lemma FieldsAreSound(buf: string, isConnect: bool)
    requires |buf| <= 0xFFFF && ParseUrl(buf, isConnect).Some?
    ensures
      var u := ParseUrl(buf, isConnect).value;
      && Laid(u.fields, |buf|) && Filled(u.fields, buf, 0, |buf|) && u.port <= 0xffff
        && (Schema in u.fields ==> Host in u.fields)
      && (Port in u.fields ==>
            var digits := buf[u.fields[Port].off..End(u.fields[Port])];
            IsDigits(digits) && u.port == Decimal(digits))
      && (Port !in u.fields ==> u.port == 0)
      && (isConnect ==> u.fields.Keys == {Host, Port})
  {
    hide Decimal, Take, ParseHost, Laid, IsDigits, Filled;
    StartIsSound(isConnect);
    NothingFilled(Start(isConnect).fields, buf);
    SplitKeeps(Start(isConnect), buf, 0);
    SplitFills(Start(isConnect), buf, 0);
    var c := Split(Start(isConnect), buf, 0).value;
    SoundMeans(c, |buf|);
    if Host in c.fields {
      ParseHostKeeps(buf, c.fields, c.foundAt);
      ParseHostFills(buf, c.fields, c.foundAt);
      var fs := ParseHost(buf, c.fields, c.foundAt).value;
      LaidBounds(fs, |buf|);
      SplitStops(Start(isConnect), buf, 0);
      if Port in fs { DigitsStop(buf, fs[Port].off, End(fs[Port])); }
    }
  }

  lemma NothingFilled(fs: Fields, buf: string)
    ensures Filled(fs, buf, 0, 0)
  {
  }

  /** The server part is followed by a delimiter, or by nothing. */
  predicate HostStops(c: Cursor, buf: string, p: nat) {
    Host in c.fields ==>
      var e := End(c.fields[Host]);
      if FieldOf(c.s) == Some(Host) then e == p else e < p && (e < |buf| ==> !IsNum(buf[e]))
  }

  lemma TakeStops(c: Cursor, buf: string, p: nat)
    requires Sound(c, p) && HostStops(c, buf, p) && p < |buf| <= 0xFFFF && Take(c, p, buf[p]).Some?
    ensures HostStops(Take(c, p, buf[p]).value, buf, p + 1)
  {
    hide ParseUrlChar, Reached, FieldOf;
    StatesMoveOn(c.s, buf[p]);
    if FieldOf(c.s) == Some(Host) { HostLeft(c.s, buf[p]); }
  }

  /** Only a slash or a question mark leaves the server part. */
  lemma HostLeft(s: State, ch: char)
    requires FieldOf(s) == Some(Host)
    ensures
      var t := ParseUrlChar(s, ch);
      FieldOf(t) != Some(Host) && !t.Dead? ==> ch == '/' || ch == '?'
  {
    hide IsAlpha, IsUserinfoChar, IsUrlChar;
  }

  lemma {:induction false} SplitStops(c: Cursor, buf: string, p: nat)
    requires WellLinked(c) && Sound(c, p) && HostStops(c, buf, p) && p <= |buf| <= 0xFFFF && Split(c, buf, p).Some?
    ensures HostStops(Split(c, buf, p).value, buf, |buf|)
    decreases |buf| - p
  {
    hide Take, Sound, HostStops;
    if p < |buf| {
      TakeKeeps(c, p, buf[p]);
      TakeStops(c, buf, p);
      SplitStops(Take(c, p, buf[p]).value, buf, p + 1);
    }
  }

  lemma {:induction false} DigitsStop(buf: string, i: nat, e: nat)
    requires i <= e <= |buf| && IsDigits(buf[i..e]) && (e < |buf| ==> !IsNum(buf[e]))
    ensures DigitsUpTo(buf, i) == e
    decreases e - i
  {
    if i < e {
      assert buf[i..e][0] == buf[i];
      assert buf[i + 1..e] == buf[i..e][1..];
      DigitsStop(buf, i + 1, e);
    }
  }

  lemma StartIsSound(isConnect: bool)
    ensures Sound(Start(isConnect), 0) && WellLinked(Start(isConnect))
    ensures forall buf :: HostStops(Start(isConnect), buf, 0)
  {
  }

  lemma SoundMeans(c: Cursor, p: nat)
    requires Sound(c, p)
    ensures Laid(c.fields, p) && Userinfo !in c.fields && Port !in c.fields
  {
  }

  lemma LaidBounds(fs: Fields, limit: nat)
    requires Laid(fs, limit)
    ensures forall f :: f in fs ==> End(fs[f]) <= limit
  {
  }

  /* ---- printed targets -------------------------------------------------- */

  predicate IsPath(s: string) {
    s != "" && (s[0] == '/' || s[0] == '*') && forall i :: 0 <= i < |s| ==> IsUrlChar(s[i])
  }

  predicate IsQuery(s: string) { forall i :: 0 <= i < |s| ==> IsUrlChar(s[i]) || s[i] == '?' }

  predicate IsFragment(s: string) {
    (forall i :: 0 <= i < |s| ==> IsUrlChar(s[i]) || s[i] == '?' || s[i] == '#') && (s != "" ==> s[0] != '#')
  }

  /** What may stand behind a mark. */
  predicate IsTail(mark: char, s: string) { if mark == '?' then IsQuery(s) else IsFragment(s) }

  /** Parts of a target that can be told apart again; an empty path stands for the root. */
  predicate Legal(path: string, query: string, fragment: string) {
    (path == "" || IsPath(path)) && IsQuery(query) && IsFragment(fragment)
  }

  function Tail(mark: char, s: string): string { if s == "" then "" else [mark] + s }

  /** The target that `http_request::serialize` prints. */
  function Printed(path: string, query: string, fragment: string): string {
    (if path == "" then "/" else path) + Tail('?', query) + Tail('#', fragment)
  }

  function TextAt(buf: string, r: Range): string
    requires End(r) <= |buf|
  {
    buf[r.off..End(r)]
  }

  /** The cursor when the current field has grown up to `q`. */
  function Grown(c: Cursor, q: nat): Cursor
    requires WellLinked(c) && c.last.Some? && c.fields[c.last.value].off <= q
  {
    var f := c.last.value;
    c.(fields := c.fields[f := Range(c.fields[f].off, q - c.fields[f].off)])
  }

  lemma GrownTwice(c: Cursor, p: nat, q: nat)
    requires WellLinked(c) && c.last.Some? && c.fields[c.last.value].off <= p <= q
    ensures Grown(Grown(c, p), q) == Grown(c, q)
    ensures End(c.fields[c.last.value]) == p ==> Grown(c, p) == c
  {
    var f, off := c.last.value, c.fields[c.last.value].off;
    assert c.fields[f := Range(off, p - off)][f := Range(off, q - off)] == c.fields[f := Range(off, q - off)];
    if End(c.fields[f]) == p { assert c.fields[f := Range(off, p - off)] == c.fields; }
  }

  /** A stretch of octets that all belong to the current field. */
  lemma {:induction false} Stays(c: Cursor, buf: string, p: nat, q: nat)
    requires WellLinked(c) && c.last.Some? && FieldOf(c.s) == c.last && !c.s.ReqServerWithAt?
    requires p <= q <= |buf| <= 0xFFFF && End(c.fields[c.last.value]) == p
    requires forall k :: p <= k < q ==> ParseUrlChar(c.s, buf[k]) == c.s && !c.s.Dead?
    ensures Split(c, buf, p) == Split(Grown(c, q), buf, q)
    decreases q - p
  {
    hide ParseUrlChar, Take, Split, Grown;
    GrownTwice(c, p, q);
    if p < q {
      TakeStays(c, buf, p);
      GrownTwice(c, p + 1, q);
      GrownStays(c, p + 1);
      Stays(Grown(c, p + 1), buf, p + 1, q);
    }
  }

  lemma GrownStays(c: Cursor, p: nat)
    requires WellLinked(c) && c.last.Some? && c.fields[c.last.value].off <= p
    ensures
      var d := Grown(c, p);
      d.s == c.s && d.last == c.last && WellLinked(d) && End(d.fields[d.last.value]) == p
      && d.fields[d.last.value].off == c.fields[c.last.value].off
  {
  }

  lemma TakeStays(c: Cursor, buf: string, p: nat)
    requires WellLinked(c) && c.last.Some? && FieldOf(c.s) == c.last && !c.s.ReqServerWithAt?
    requires p < |buf| <= 0xFFFF && End(c.fields[c.last.value]) == p && ParseUrlChar(c.s, buf[p]) == c.s && !c.s.Dead?
    ensures Split(c, buf, p) == Split(Grown(c, p + 1), buf, p + 1)
  {
    hide ParseUrlChar, FieldOf, Take, Split;
    TakeMeans(c, p, buf[p]);
    SplitStep(c, buf, p);
  }

  lemma SplitStep(c: Cursor, buf: string, p: nat)
    requires WellLinked(c) && p < |buf| && Take(c, p, buf[p]).Some?
    ensures Split(c, buf, p) == Split(Take(c, p, buf[p]).value, buf, p + 1)
  {
    hide Take;
  }

  /** A round in a known state. */
  lemma TakeMeans(c: Cursor, p: nat, ch: char)
    requires WellLinked(c) && p < 0xFFFF && !ParseUrlChar(c.s, ch).Dead?
    ensures
      var t := ParseUrlChar(c.s, ch);
      Take(c, p, ch) == Some(
        if FieldOf(t).None? then c.(s := t)
        else
          var f := FieldOf(t).value;
          Cursor(t, Some(f), c.fields[f := if c.last == Some(f) then Longer(c.fields[f]) else Range(p, 1)],
                 c.foundAt || t.ReqServerWithAt?))
  {
    hide ParseUrlChar, FieldOf;
  }

  /** A mark and the query or fragment behind it. */
  lemma TailSplits(c: Cursor, buf: string, p: nat, mark: char, s: string)
    requires WellLinked(c) && c.last.Some? && IsTail(mark, s) && p + |Tail(mark, s)| <= |buf| <= 0xFFFF
    requires buf[p..p + |Tail(mark, s)|] == Tail(mark, s)
    requires if mark == '?' then (c.s.ReqPath? || c.s.ReqServer?) && c.last == FieldOf(c.s)
             else mark == '#' && (c.s.ReqPath? || c.s.ReqQueryString?) && c.last != Some(Fragment)
    ensures
      var q := p + |Tail(mark, s)|;
      var f := if mark == '?' then Query else Fragment;
      var t := if mark == '?' then ReqQueryString else ReqFragment;
      Split(c, buf, p) ==
        if s == "" then Split(c, buf, q)
        else Split(Cursor(t, Some(f), c.fields[f := Range(p + 1, |s|)], c.foundAt), buf, q)
  {
    hide ParseUrlChar, Take, Split, IsTail, IsUrlChar, Tail;
    TailText(buf, p, mark, s);
    if s != "" {
      TailIsText(buf, p, mark, s);
      TailHead(mark, s);
      TailOpens(c, buf, p, mark);
      var f := if mark == '?' then Query else Fragment;
      var q := p + 1 + |s|;
      var s1 := if mark == '?' then ReqQueryString else ReqFragment;
      var b := Cursor(s1, Some(f), c.fields[f := Range(p + 1, 1)], c.foundAt);
      TailStays(buf, p + 1, mark, s);
      Stays(b, buf, p + 2, q);
      UpdateTwice(c.fields, f, Range(p + 1, 1), Range(p + 1, |s|));
    }
  }

  /** The state in which a tail is read. */
  function TailState(mark: char): State { if mark == '?' then ReqQueryString else ReqFragment }

  lemma TailStays(buf: string, p: nat, mark: char, s: string)
    requires IsTail(mark, s) && p + |s| <= |buf| && buf[p..p + |s|] == s
    ensures forall k :: p <= k < p + |s| ==> ParseUrlChar(TailState(mark), buf[k]) == TailState(mark)
  {
    hide ParseUrlChar, IsTail, TailState;
    forall k | p <= k < p + |s| ensures ParseUrlChar(TailState(mark), buf[k]) == TailState(mark) {
      assert buf[k] == buf[p..p + |s|][k - p];
      TailChars(mark, s, buf[k]);
    }
  }

  lemma UpdateTwice(fs: Fields, f: UrlField, a: Range, b: Range)
    ensures fs[f := a][f := b] == fs[f := b]
  {
  }

  /** The mark and the first character. */
  lemma TailOpens(c: Cursor, buf: string, p: nat, mark: char)
    requires WellLinked(c) && p + 2 <= |buf| <= 0xFFFF && buf[p] == mark
    requires if mark == '?' then (c.s.ReqPath? || c.s.ReqServer?) && c.last == FieldOf(c.s)
             else mark == '#' && (c.s.ReqPath? || c.s.ReqQueryString?) && c.last != Some(Fragment)
    requires ParseUrlChar(if mark == '?' then ReqQueryStringStart else ReqFragmentStart, buf[p + 1])
      == if mark == '?' then ReqQueryString else ReqFragment
    ensures
      var f := if mark == '?' then Query else Fragment;
      var t := if mark == '?' then ReqQueryString else ReqFragment;
      Split(c, buf, p) == Split(Cursor(t, Some(f), c.fields[f := Range(p + 1, 1)], c.foundAt), buf, p + 2)
  {
    hide ParseUrlChar, Take, Split;
    MarkChar(c.s, mark);
    TakeMeans(c, p, buf[p]);
    SplitStep(c, buf, p);
    var a := Take(c, p, buf[p]).value;
    TakeMeans(a, p + 1, buf[p + 1]);
    SplitStep(a, buf, p + 1);
  }

  lemma TailIsText(buf: string, p: nat, mark: char, s: string)
    requires p + |Tail(mark, s)| <= |buf| && buf[p..p + |Tail(mark, s)|] == Tail(mark, s) && s != ""
    ensures |Tail(mark, s)| == 1 + |s| && buf[p] == mark
    ensures forall k :: p + 1 <= k < p + 1 + |s| ==> buf[k] == s[k - p - 1]
  {
    var t := buf[p..p + |Tail(mark, s)|];
    assert forall k :: p <= k < p + |t| ==> buf[k] == t[k - p];
  }

  lemma TailChars(mark: char, s: string, ch: char)
    requires IsTail(mark, s) && ch in s
    ensures ParseUrlChar(TailState(mark), ch) == TailState(mark)
  {
  }

  lemma TailHead(mark: char, s: string)
    requires IsTail(mark, s) && s != ""
    ensures ParseUrlChar(if mark == '?' then ReqQueryStringStart else ReqFragmentStart, s[0]) == TailState(mark)
  {
  }

  lemma MarkChar(s: State, mark: char)
    requires if mark == '?' then s.ReqPath? || s.ReqServer? else mark == '#' && (s.ReqPath? || s.ReqQueryString?)
    ensures ParseUrlChar(s, mark) == if mark == '?' then ReqQueryStringStart else ReqFragmentStart
  {
  }

  /**
   Printing and splitting a target are inverse: path, query and fragment come back
   exactly, whichever of them are empty.
   */
  lemma PrintedSplits(path: string, query: string, fragment: string)
    requires Legal(path, query, fragment) && |Printed(path, query, fragment)| <= 0xFFFF
    ensures
      var buf := Printed(path, query, fragment);
      var r := ParseUrl(buf, false);
      && r.Some? && r.value.fields.Keys
        == {Path} + (if query == "" then {} else {Query}) + (if fragment == "" then {} else {Fragment})
      && Laid(r.value.fields, |buf|)
      && TextAt(buf, r.value.fields[Path]) == (if path == "" then "/" else path)
      && (query != "" ==> TextAt(buf, r.value.fields[Query]) == query)
      && (fragment != "" ==> TextAt(buf, r.value.fields[Fragment]) == fragment)
  {
    hide Take, Split, Laid, IsQuery, IsFragment, IsPath, IsUrlChar, ParseUrlChar, Tail, Decimal, DigitsUpTo;
    var buf := Printed(path, query, fragment);
    var shown := if path == "" then "/" else path;
    var n, m := |shown|, |shown| + |Tail('?', query)|;
    PrintedParts(shown, Tail('?', query), Tail('#', fragment));
    PathSplits(buf, shown);
    var c := Cursor(ReqPath, Some(Path), map[Path := Range(0, n)], false);
    TailSplits(c, buf, n, '?', query);
    var d := if query == "" then c
      else Cursor(ReqQueryString, Some(Query), c.fields[Query := Range(n + 1, |query|)], false);
    TailSplits(d, buf, m, '#', fragment);
    var e := if fragment == "" then d
      else Cursor(ReqFragment, Some(Fragment), d.fields[Fragment := Range(m + 1, |fragment|)], false);
    SplitEnds(e, buf);
    TailText(buf, n, '?', query);
    TailText(buf, m, '#', fragment);
    FieldsAreSound(buf, false);
  }

  lemma PrintedParts(a: string, b: string, c: string)
    ensures
      var buf := a + b + c;
      buf[..|a|] == a && buf[|a|..|a| + |b|] == b && buf[|a| + |b|..|a| + |b| + |c|] == c
  {
  }

  lemma TailText(buf: string, p: nat, mark: char, s: string)
    requires p + |Tail(mark, s)| <= |buf| && buf[p..p + |Tail(mark, s)|] == Tail(mark, s)
    ensures s != "" ==> |Tail(mark, s)| == 1 + |s| && buf[p + 1..p + 1 + |s|] == s
    ensures s == "" ==> Tail(mark, s) == ""
  {
    var t := buf[p..p + |Tail(mark, s)|];
    if s != "" {
      assert forall k :: 0 <= k < |s| ==> buf[p + 1 + k] == t[1 + k] == s[k];
      assert buf[p + 1..p + 1 + |s|] == s;
    }
  }

  lemma SplitEnds(c: Cursor, buf: string)
    requires WellLinked(c)
    ensures Split(c, buf, |buf|) == Some(c)
  {
  }

  lemma PathSplits(buf: string, shown: string)
    requires shown == "/" || IsPath(shown)
    requires |shown| <= |buf| <= 0xFFFF && buf[..|shown|] == shown
    ensures Split(Start(false), buf, 0)
      == Split(Cursor(ReqPath, Some(Path), map[Path := Range(0, |shown|)], false), buf, |shown|)
  {
    hide ParseUrlChar, Take, Split, IsPath, IsUrlChar;
    var n := |shown|;
    assert forall k :: 0 <= k < n ==> buf[k] == shown[k];
    PathChars(shown);
    TakeMeans(Start(false), 0, buf[0]);
    SplitStep(Start(false), buf, 0);
    var b := Take(Start(false), 0, buf[0]).value;
    Stays(b, buf, 1, n);
    assert b.fields[Path := Range(0, n)] == map[Path := Range(0, n)];
  }

  lemma PathChars(shown: string)
    requires shown == "/" || IsPath(shown)
    ensures shown != "" && ParseUrlChar(ReqSpacesBeforeUrl, shown[0]) == ReqPath
    ensures forall k :: 0 <= k < |shown| ==> ParseUrlChar(ReqPath, shown[k]) == ReqPath
  {
  }

  lemma MarkLinks(s: HostState, t: HostState, fs: Fields, p: nat)
    requires HostLinked(s, fs)
    ensures HostLinked(t, HostMark(s, t, fs, p))
  {
  }

  /* ---- what is written, accepted or not ---------------------------------- */

  /** The cursor when the loop ends, or when an octet is refused. */
  function Leave(c: Cursor, buf: string, p: nat): (d: Cursor)
    requires WellLinked(c) && p <= |buf|
    ensures WellLinked(d)
    decreases |buf| - p
  {
    if p == |buf| then c
    else
      var r := Take(c, p, buf[p]);
      if r.None? then c else Leave(r.value, buf, p + 1)
  }

  function HostLeave(s: HostState, fs: Fields, buf: string, p: nat, end: nat): Fields
    requires HostLinked(s, fs) && p <= end <= |buf|
    decreases end - p
  {
    if p == end then fs
    else
      var t := HostChar(s, buf[p]);
      if t.Dead? then fs else HostLeave(t, HostMark(s, t, fs, p), buf, p + 1, end)
  }

  function HostWritten(buf: string, fs: Fields, foundAt: bool): Fields
    requires Host in fs && End(fs[Host]) <= |buf|
  {
    var h := fs[Host];
    HostLeave(if foundAt then UserinfoStart else HostStart, fs[Host := h.(len := 0)], buf, h.off, End(h))
  }

  /** The entries of `field_data` that a call has written when it returns, whatever it returns. */
  function Written(buf: string, isConnect: bool): Fields {
    var c := Leave(Start(isConnect), buf, 0);
    if Split(Start(isConnect), buf, 0).None? || Host !in c.fields || End(c.fields[Host]) > |buf| then c.fields
    else HostWritten(buf, c.fields, c.foundAt)
  }

  lemma {:induction false} LeaveSplits(c: Cursor, buf: string, p: nat)
    requires WellLinked(c) && p <= |buf| && Split(c, buf, p).Some?
    ensures Leave(c, buf, p) == Split(c, buf, p).value
    decreases |buf| - p
  {
    hide Take;
    if p < |buf| { LeaveSplits(Take(c, p, buf[p]).value, buf, p + 1); }
  }

  lemma {:induction false} HostLeaveRuns(s: HostState, fs: Fields, buf: string, p: nat, end: nat)
    requires HostLinked(s, fs) && p <= end <= |buf| && HostRun(s, fs, buf, p, end).Some?
    ensures HostLeave(s, fs, buf, p, end) == HostRun(s, fs, buf, p, end).value.1
    decreases end - p
  {
    hide HostChar, HostMark;
    if p < end {
      var t := HostChar(s, buf[p]);
      MarkLinks(s, t, fs, p);
      HostLeaveRuns(t, HostMark(s, t, fs, p), buf, p + 1, end);
    }
  }

  /** What an accepted target has written is its fields. */
  lemma WrittenIsFields(buf: string, isConnect: bool)
    requires ParseUrl(buf, isConnect).Some?
    ensures Written(buf, isConnect) == ParseUrl(buf, isConnect).value.fields
  {
    hide Take, HostRun, Decimal, DigitsUpTo, HostLeave;
    LeaveSplits(Start(isConnect), buf, 0);
    var c := Split(Start(isConnect), buf, 0).value;
    if Host in c.fields {
      var h := c.fields[Host];
      HostLeaveRuns(if c.foundAt then UserinfoStart else HostStart, c.fields[Host := h.(len := 0)], buf, h.off, End(h));
    }
  }

  /* ---- the loops --------------------------------------------------------- */

  /** `http_parse_host`, with the entries it has written. */
  method SplitHost(buf: string, fs: Fields, foundAt: bool) returns (r: Option<Fields>, written: Fields)
    requires Host in fs && End(fs[Host]) <= |buf|
    ensures r == ParseHost(buf, fs, foundAt) && written == HostWritten(buf, fs, foundAt)
  {
    hide HostChar, HostMark;
    var h := fs[Host];
    var end := h.off + h.len;
    var fields := fs[Host := h.(len := 0)];
    var s := if foundAt then UserinfoStart else HostStart;
    ghost var all, left := HostRun(s, fields, buf, h.off, end), HostLeave(s, fields, buf, h.off, end);
    var p := h.off;
    while p < end
      invariant p <= end && HostLinked(s, fields)
      invariant HostRun(s, fields, buf, p, end) == all && HostLeave(s, fields, buf, p, end) == left
    {
      var t := HostChar(s, buf[p]);
      if t.Dead? { return None, fields; }
      MarkLinks(s, t, fields, p);
      fields := HostMark(s, t, fields, p);
      s := t;
      p := p + 1;
    }
    if !HostEnds(s) { return None, fields; }
    r, written := Some(fields), fields;
  }

  /** `http_parser_parse_url`, with the entries of `field_data` it has written. */
  method SplitUrl(buf: string, isConnect: bool) returns (r: Option<Url>, written: Fields)
    ensures r == ParseUrl(buf, isConnect) && written == Written(buf, isConnect)
  {
    hide ParseUrlChar, ParseHost, Decimal, DigitsUpTo, FieldOf;
    var s := if isConnect then ReqServerStart else ReqSpacesBeforeUrl;
    var oldUf: Option<UrlField> := None;
    var fields: Fields := map[];
    var foundAt := false;
    var p := 0;
    while p < |buf|
      invariant p <= |buf| && WellLinked(Cursor(s, oldUf, fields, foundAt))
      invariant Split(Cursor(s, oldUf, fields, foundAt), buf, p) == Split(Start(isConnect), buf, 0)
      invariant Leave(Cursor(s, oldUf, fields, foundAt), buf, p) == Leave(Start(isConnect), buf, 0)
    {
      s := ParseUrlChar(s, buf[p]);
      if s.Dead? { return None, fields; }
      var uf := FieldOf(s);
      if uf.Some? {
        if s.ReqServerWithAt? { foundAt := true; }
        if uf == oldUf {
          fields := fields[uf.value := Longer(fields[uf.value])];
        } else {
          fields := fields[uf.value := Range(U16(p), 1)];
          oldUf := uf;
        }
      }
      p := p + 1;
    }
    written := fields;
    if Schema in fields && Host !in fields { return None, written; }
    if Host in fields {
      if End(fields[Host]) > |buf| { return None, written; }
      var host;
      host, written := SplitHost(buf, fields, foundAt);
      if host.None? { return None, written; }
      fields := host.value;
    }
    if isConnect && fields.Keys != {Host, Port} { return None, written; }
    if Port in fields {
      var off := Bounded(fields[Port].off, |buf|);
      var v := Decimal(buf[off..DigitsUpTo(buf, off)]);
      if v > 0xffff { return None, written; }
      return Some(Url.Url(fields, v)), written;
    }
    r := Some(Url.Url(fields, 0));
  }
}
