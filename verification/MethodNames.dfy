/**
 How the parser recognises request methods: it guesses one from the first letter
 and changes its mind on the way.
 */
module MethodNames {
  import opened Ascii
  import opened ParserTypes
  import opened ParserStep

  /** The method held after one more octet, when `i` octets of the name have been read. */
  function NextMethod(v: Method, i: nat, ch: char): Option<Method> {
    if ch == '\0' then None
    else if ch == At(MethodString(v), i) then Some(v)
    else if IsAlpha(ch) then SwitchMethod(v, i, ch)
    else if ch == '-' && i == 1 && v.MKCOL? then Some(MSEARCH)
    else None
  }

  /** This is what `s_req_method` does with an octet of the name. */
  lemma MethodOctet(c: Core, ch: char)
    requires c.state.ReqMethod? && !(ch == SP && At(MethodString(c.line.verb), c.m.index) == '\0')
    ensures
      var o := OnReqMethod(c, ch);
      match NextMethod(c.line.verb, c.m.index, ch)
      case Some(v) =>
        o == Out(c.(state := ReqMethod, line := c.line.(verb := v), m := c.m.(index := c.m.index + 1)), [],
                 false, false)
      case None => o.core.errno.InvalidMethod?
  {
    hide SwitchMethod, MethodString;
  }

  /** The method held after `s`, when `i` octets have been read before. */
  function Spell(v: Method, i: nat, s: string): Option<Method>
    decreases |s|
  {
    if s == "" then Some(v)
    else
      var w := NextMethod(v, i, s[0]);
      if w.None? then None else Spell(w.value, i + 1, s[1..])
  }

  /** `t` is how the name of `v` begins. */
  predicate Starts(t: string, v: Method) { t <= MethodString(v) }

  lemma FirstAgrees(ch: char)
    ensures FirstMethod(ch).Some? ==> Starts([ch], FirstMethod(ch).value)
  {
  }

  /** A change of mind keeps what has been read. */
  predicate Shares(v: Method, w: Method, i: nat, ch: char) {
    var n, o := MethodString(v), MethodString(w);
    i <= |n| && i < |o| && n[..i] == o[..i] && o[i] == ch
  }

  lemma SwitchSharesP(v: Method, i: nat, ch: char)
    requires SwitchMethod(v, i, ch).Some? && (v.POST? || v.PUT? || v.PROPFIND?)
    ensures Shares(v, SwitchMethod(v, i, ch).value, i, ch)
  {
    assert MethodString(PROPFIND)[..4] == "PROP" == MethodString(PROPPATCH)[..4];
    assert MethodString(PUT)[..2] == "PU" == MethodString(PURGE)[..2];
  }

  lemma SwitchSharesMC(v: Method, i: nat, ch: char)
    requires SwitchMethod(v, i, ch).Some? && (v.MKCOL? || v.CONNECT?)
    ensures Shares(v, SwitchMethod(v, i, ch).value, i, ch)
  {
    assert MethodString(MKCOL)[..2] == "MK" == MethodString(MKACTIVITY)[..2];
    assert MethodString(MKCOL)[..3] == "MKC" == MethodString(MKCALENDAR)[..3];
    assert MethodString(CONNECT)[..2] == "CO" == MethodString(COPY)[..2];
  }

  lemma SwitchSharesU(v: Method, i: nat, ch: char)
    requires SwitchMethod(v, i, ch).Some? && v.UNLOCK?
    ensures Shares(v, SwitchMethod(v, i, ch).value, i, ch)
  {
    assert MethodString(UNLOCK)[..2] == "UN" == MethodString(UNSUBSCRIBE)[..2] == MethodString(UNBIND)[..2];
    assert MethodString(UNLOCK)[..3] == "UNL" == MethodString(UNLINK)[..3];
  }

  lemma SwitchSharesRest(v: Method, i: nat, ch: char)
    requires SwitchMethod(v, i, ch).Some? && (v.SUBSCRIBE? || v.REPORT? || v.LOCK?)
    ensures Shares(v, SwitchMethod(v, i, ch).value, i, ch)
  {
    assert MethodString(REPORT)[..2] == "RE" == MethodString(REBIND)[..2];
  }

  lemma SwitchFrom(v: Method, i: nat, ch: char)
    requires SwitchMethod(v, i, ch).Some?
    ensures v.POST? || v.PUT? || v.PROPFIND? || v.MKCOL? || v.CONNECT? || v.UNLOCK? || v.SUBSCRIBE? || v.REPORT?
      || v.LOCK?
  {
  }

  lemma SwitchAgrees(v: Method, t: string, ch: char)
    requires Starts(t, v) && SwitchMethod(v, |t|, ch).Some?
    ensures Starts(t + [ch], SwitchMethod(v, |t|, ch).value)
  {
    hide SwitchMethod, MethodString;
    SwitchFrom(v, |t|, ch);
    if v.POST? || v.PUT? || v.PROPFIND? { SwitchSharesP(v, |t|, ch); }
    else if v.MKCOL? || v.CONNECT? { SwitchSharesMC(v, |t|, ch); }
    else if v.UNLOCK? { SwitchSharesU(v, |t|, ch); }
    else { SwitchSharesRest(v, |t|, ch); }
  }

  lemma NextAgrees(v: Method, t: string, ch: char)
    requires Starts(t, v) && NextMethod(v, |t|, ch).Some?
    ensures Starts(t + [ch], NextMethod(v, |t|, ch).value)
  {
    hide SwitchMethod;
    var n := MethodString(v);
    if ch == At(n, |t|) {
      hide MethodString;
      assert t + [ch] == n[..|t| + 1];
    } else if IsAlpha(ch) {
      hide MethodString;
      SwitchAgrees(v, t, ch);
    } else {
      assert t == [n[0]];
      assert MethodString(MSEARCH)[..2] == "M-";
    }
  }

  /** Whatever has been read is how the name of the method held begins. */
  lemma {:induction false} SpellAgrees(v: Method, t: string, s: string)
    requires Starts(t, v) && Spell(v, |t|, s).Some?
    ensures Starts(t + s, Spell(v, |t|, s).value)
    decreases |s|
  {
    hide Starts, NextMethod;
    if s == "" {
      assert t + s == t;
    } else {
      NextAgrees(v, t, s[0]);
      SpellAgrees(NextMethod(v, |t|, s[0]).value, t + [s[0]], s[1..]);
      assert t + [s[0]] + s[1..] == t + s;
    }
  }

  /** The method held after `i` octets of the name of `v`. */
  function Held(v: Method, i: nat): Method {
    match v
    case PUT => if i < 2 then POST else PUT
    case PATCH => if i < 2 then POST else PATCH
    case PURGE => if i < 2 then POST else if i < 3 then PUT else PURGE
    case PROPFIND => if i < 2 then POST else PROPFIND
    case PROPPATCH => if i < 2 then POST else if i < 5 then PROPFIND else PROPPATCH
    case CHECKOUT => if i < 2 then CONNECT else CHECKOUT
    case COPY => if i < 3 then CONNECT else COPY
    case MOVE => if i < 2 then MKCOL else MOVE
    case MERGE => if i < 2 then MKCOL else MERGE
    case MSEARCH => if i < 2 then MKCOL else MSEARCH
    case MKACTIVITY => if i < 3 then MKCOL else MKACTIVITY
    case MKCALENDAR => if i < 4 then MKCOL else MKCALENDAR
    case SEARCH => if i < 2 then SUBSCRIBE else SEARCH
    case REBIND => if i < 3 then REPORT else REBIND
    case LINK => if i < 2 then LOCK else LINK
    case UNSUBSCRIBE => if i < 3 then UNLOCK else UNSUBSCRIBE
    case UNBIND => if i < 3 then UNLOCK else UNBIND
    case UNLINK => if i < 4 then UNLOCK else UNLINK
    case _ => v
  }

  predicate NextIsHeld(v: Method, i: nat)
    requires i < |MethodString(v)|
  {
    NextMethod(Held(v, i), i, MethodString(v)[i]) == Some(Held(v, i + 1))
  }

  lemma HeldNextP(v: Method, i: nat)
    requires 1 <= i < |MethodString(v)| && (v.PUT? || v.PATCH? || v.PURGE? || v.PROPFIND? || v.PROPPATCH?)
    ensures NextIsHeld(v, i)
  {
  }

  lemma HeldNextMC(v: Method, i: nat)
    requires 1 <= i < |MethodString(v)|
    requires v.MOVE? || v.MERGE? || v.MSEARCH? || v.MKACTIVITY? || v.MKCALENDAR? || v.CHECKOUT? || v.COPY?
    ensures NextIsHeld(v, i)
  {
  }

  lemma HeldNextU(v: Method, i: nat)
    requires 1 <= i < |MethodString(v)|
    requires v.SEARCH? || v.REBIND? || v.LINK? || v.UNSUBSCRIBE? || v.UNBIND? || v.UNLINK?
    ensures NextIsHeld(v, i)
  {
  }

  lemma HeldStays(v: Method, i: nat)
    requires 1 <= i < |MethodString(v)| && Held(v, i) == v == Held(v, i + 1)
    ensures NextIsHeld(v, i)
  {
    hide Held, SwitchMethod;
    NamesAreText(v, i);
  }

  predicate Changing(v: Method) {
    v.PUT? || v.PATCH? || v.PURGE? || v.PROPFIND? || v.PROPPATCH? || v.MOVE? || v.MERGE? || v.MSEARCH?
    || v.MKACTIVITY? || v.MKCALENDAR? || v.CHECKOUT? || v.COPY? || v.SEARCH? || v.REBIND? || v.LINK?
    || v.UNSUBSCRIBE? || v.UNBIND? || v.UNLINK?
  }

  lemma HeldFixed(v: Method, i: nat)
    requires !Changing(v)
    ensures Held(v, i) == v
  {
  }

  lemma HeldNext(v: Method, i: nat)
    requires 1 <= i < |MethodString(v)|
    ensures NextIsHeld(v, i)
  {
    hide MethodString, Held, NextIsHeld;
    if v.PUT? || v.PATCH? || v.PURGE? || v.PROPFIND? || v.PROPPATCH? { HeldNextP(v, i); }
    else if v.SEARCH? || v.REBIND? || v.LINK? || v.UNSUBSCRIBE? || v.UNBIND? || v.UNLINK? { HeldNextU(v, i); }
    else if Changing(v) { HeldNextMC(v, i); }
    else {
      HeldFixed(v, i);
      HeldFixed(v, i + 1);
      HeldStays(v, i);
    }
  }

  lemma HeldFirst(v: Method)
    ensures MethodString(v) != "" && FirstMethod(MethodString(v)[0]) == Some(Held(v, 1))
  {
  }

  lemma HeldLast(v: Method)
    ensures Held(v, |MethodString(v)|) == v
  {
  }

  /** No octet of a name ends a C string. */
  lemma NamesAreText(v: Method, i: nat)
    requires i < |MethodString(v)|
    ensures MethodString(v)[i] != '\0'
  {
    hide IsAlpha;
  }

  /** The name of a method leads to that method. */
  lemma {:induction false} SpellHeld(v: Method, i: nat)
    requires 1 <= i <= |MethodString(v)|
    ensures Spell(Held(v, i), i, MethodString(v)[i..]) == Some(v)
    decreases |MethodString(v)| - i
  {
    hide MethodString, NextMethod, Held;
    var n := MethodString(v);
    if i == |n| {
      HeldLast(v);
    } else {
      HeldNext(v, i);
      SpellHeld(v, i + 1);
      assert n[i..][1..] == n[i + 1..];
    }
  }

  /** `s`, followed by a space, is taken for the method `v`. */
  predicate Accepts(s: string, v: Method) {
    && s != "" && FirstMethod(s[0]).Some? && Spell(FirstMethod(s[0]).value, 1, s[1..]) == Some(v)
    && At(MethodString(v), |s|) == '\0'
  }

  /** Each of the 33 methods is recognised by its name and by nothing else, in spite of the guessing. */
  lemma NamesAreExact(s: string, v: Method)
    ensures Accepts(s, v) <==> s == MethodString(v)
  {
    hide MethodString, FirstMethod, Spell, Held;
    var n := MethodString(v);
    if Accepts(s, v) {
      FirstAgrees(s[0]);
      SpellAgrees(FirstMethod(s[0]).value, [s[0]], s[1..]);
      assert [s[0]] + s[1..] == s;
      if |s| < |n| { NamesAreText(v, |s|); }
    }
    HeldFirst(v);
    SpellHeld(v, 1);
  }

  /** What `http_request::serialize` prints for a method: the name of its C++ constant. */
  function PrintedName(v: Method): string { if v.MSEARCH? then "MSEARCH" else MethodString(v) }

  /** The one printed name that differs from the name on the wire is no name at all. */
  lemma NoSuchName(v: Method)
    ensures MethodString(v) != "MSEARCH"
  {
  }

  /** A printed method is read back, except M-SEARCH, which is not read as any method. */
  lemma PrintedNamesAreRead(v: Method)
    ensures Accepts(PrintedName(v), v) <==> !v.MSEARCH?
    ensures v.MSEARCH? ==> forall w :: !Accepts(PrintedName(v), w)
  {
    hide MethodString, Accepts;
    NamesAreExact(PrintedName(v), v);
    if v.MSEARCH? {
      forall w ensures !Accepts(PrintedName(v), w) {
        NamesAreExact(PrintedName(v), w);
        NoSuchName(w);
      }
    }
  }
}
