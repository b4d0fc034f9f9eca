/**
 What the matcher of field names recognises: exactly the names that influence
 framing and persistence, in any case, and nothing else.
 */
module FieldNames {
  import opened Ascii
  import opened ParserTypes
  import opened ParserStep

  predicate IsTokens(k: string) { forall i :: 0 <= i < |k| ==> IsToken(k[i]) }

  function LowerName(k: string): (r: string)
    requires IsTokens(k)
    ensures |r| == |k| && forall i :: 0 <= i < |k| ==> r[i] == TokenLower(k[i])
  {
    seq(|k|, i requires 0 <= i < |k| => TokenLower(k[i]))
  }

  /** The matcher after the first octet of a name. */
  function NameStart(m: Matcher, ch: char): Matcher
    requires IsToken(ch)
  {
    m.(index := 0, hs := FirstFieldState(TokenLower(ch)))
  }

  /** The matcher over the following octets; an error stops it. */
  function NameRun(m: Matcher, s: string): Matched
    requires IsTokens(s)
    decreases |s|
  {
    if s == "" then Now(m)
    else
      var r := FieldByte(m, s[0]);
      if r.errno.Ok? then NameRun(r.m, s[1..]) else r
  }

  function Name(m: Matcher, k: string): Matched
    requires k != "" && IsTokens(k)
  {
    NameRun(NameStart(m, k[0]), k[1..])
  }

  predicate Begins(s: string, word: string) {
    |s| <= |word| && forall i :: 0 <= i < |s| ==> s[i] == word[i]
  }

  /** No framing word begins with `s`. */
  predicate Alien(s: string) {
    !Begins(s, CONNECTION) && !Begins(s, PROXY_CONNECTION) && !Begins(s, CONTENT_LENGTH)
    && !Begins(s, TRANSFER_ENCODING) && !Begins(s, UPGRADE)
  }

  /** The matcher's state says what has been read. */
  predicate Reads(h: HeaderState, index: nat, s: string) {
    if h.General? then Alien(s)
    else if h.HC? then s == "c" && index == 0
    else if h.HCO? then s == "co" && index == 1
    else if h.HCON? then s == "con" && index == 2
    else if h.MatchingConnection? then 3 <= index < 9 && s == CONNECTION[..index + 1]
    else if h.MatchingContentLength? then 3 <= index < 13 && s == CONTENT_LENGTH[..index + 1]
    else if h.MatchingProxyConnection? then index < 15 && s == PROXY_CONNECTION[..index + 1]
    else if h.MatchingTransferEncoding? then index < 16 && s == TRANSFER_ENCODING[..index + 1]
    else if h.MatchingUpgrade? then index < 6 && s == UPGRADE[..index + 1]
    else if h.HConnection? then s == CONNECTION || s == PROXY_CONNECTION
    else if h.HContentLength? then s == CONTENT_LENGTH
    else if h.HTransferEncoding? then s == TRANSFER_ENCODING
    else h.HUpgrade? && s == UPGRADE
  }

  lemma StartReads(m: Matcher, ch: char)
    requires IsToken(ch)
    ensures Reads(NameStart(m, ch).hs, 0, [TokenLower(ch)])
  {
    assert [TokenLower(ch)][0] == TokenLower(ch);
  }

  /** What one more octet must preserve. */
  predicate KeepsReading(m: Matcher, ch: char, s: string)
    requires IsToken(ch)
  {
    var r := FieldByte(m, ch);
    if r.errno.Ok? then Reads(r.m.hs, r.m.index, s + [TokenLower(ch)])
    else s + [TokenLower(ch)] == CONTENT_LENGTH && m.flags.contentLength
  }

  lemma ShortReads(m: Matcher, ch: char, s: string)
    requires IsToken(ch) && Reads(m.hs, m.index, s) && s != ""
    requires m.hs.General? || m.hs.HC? || m.hs.HCO? || m.hs.HCON?
    ensures KeepsReading(m, ch, s)
  {
    var t := s + [TokenLower(ch)];
    assert t[|s|] == TokenLower(ch) && t[0] == s[0];
    if |s| > 3 { assert t[3] == s[3]; }
  }

  lemma ConReads(m: Matcher, ch: char, s: string)
    requires IsToken(ch) && Reads(m.hs, m.index, s) && s != ""
    requires m.hs.MatchingConnection? || m.hs.MatchingContentLength?
    ensures KeepsReading(m, ch, s)
  {
    var t := s + [TokenLower(ch)];
    assert t[|s|] == TokenLower(ch) && t[0] == s[0];
    if |s| > 3 { assert t[3] == s[3]; }
  }

  lemma WordReads(m: Matcher, ch: char, s: string)
    requires IsToken(ch) && Reads(m.hs, m.index, s) && s != ""
    requires m.hs.MatchingProxyConnection? || m.hs.MatchingUpgrade?
    ensures KeepsReading(m, ch, s)
  {
    var t := s + [TokenLower(ch)];
    assert t[|s|] == TokenLower(ch) && t[0] == s[0];
    if |s| > 3 { assert t[3] == s[3]; }
  }

  lemma LongReads(m: Matcher, ch: char, s: string)
    requires IsToken(ch) && Reads(m.hs, m.index, s) && s != ""
    requires m.hs.MatchingTransferEncoding?
    ensures KeepsReading(m, ch, s)
  {
    var t := s + [TokenLower(ch)];
    assert t[|s|] == TokenLower(ch) && t[0] == s[0];
    if |s| > 3 { assert t[3] == s[3]; }
  }

  lemma DoneReads(m: Matcher, ch: char, s: string)
    requires IsToken(ch) && Reads(m.hs, m.index, s) && s != ""
    requires m.hs.HConnection? || m.hs.HContentLength? || m.hs.HTransferEncoding? || m.hs.HUpgrade?
    ensures KeepsReading(m, ch, s)
  {
    var t := s + [TokenLower(ch)];
    assert t[|s|] == TokenLower(ch) && t[0] == s[0];
    if |s| > 3 { assert t[3] == s[3]; }
  }

  lemma ByteReads(m: Matcher, ch: char, s: string)
    requires IsToken(ch) && Reads(m.hs, m.index, s) && s != ""
    ensures KeepsReading(m, ch, s)
  {
    hide KeepsReading, Reads;
    if m.hs.General? || m.hs.HC? || m.hs.HCO? || m.hs.HCON? { ShortReads(m, ch, s); }
    else if m.hs.MatchingConnection? || m.hs.MatchingContentLength? { ConReads(m, ch, s); }
    else if m.hs.MatchingProxyConnection? || m.hs.MatchingUpgrade? { WordReads(m, ch, s); }
    else if m.hs.MatchingTransferEncoding? { LongReads(m, ch, s); }
    else { ReadsDone(m.hs, m.index, s); DoneReads(m, ch, s); }
  }

  lemma ReadsDone(h: HeaderState, index: nat, s: string)
    requires Reads(h, index, s) && !h.General? && !h.HC? && !h.HCO? && !h.HCON? && !h.MatchingConnection?
    requires !h.MatchingContentLength? && !h.MatchingProxyConnection? && !h.MatchingUpgrade?
    requires !h.MatchingTransferEncoding?
    ensures h.HConnection? || h.HContentLength? || h.HTransferEncoding? || h.HUpgrade?
  {
  }

  /* ---- whole names ---------------------------------------------------- */

  /** The state in which a complete name leaves the matcher, when it is a framing word. */
  function Meaning(name: string): Option<HeaderState> {
    if name == "connection" || name == "proxy-connection" then Some(HConnection)
    else if name == "content-length" then Some(HContentLength)
    else if name == "transfer-encoding" then Some(HTransferEncoding)
    else if name == "upgrade" then Some(HUpgrade)
    else None
  }

  predicate IsFraming(h: HeaderState) { h.HConnection? || h.HContentLength? || h.HTransferEncoding? || h.HUpgrade? }

  lemma {:induction false} NameRunReads(m: Matcher, k: string, s: string)
    requires IsTokens(k) && Reads(m.hs, m.index, s) && s != ""
    ensures
      var r := NameRun(m, k);
      && (r.errno.Ok? ==> Reads(r.m.hs, r.m.index, s + LowerName(k)))
      && (!r.errno.Ok? ==> Begins(CONTENT_LENGTH, s + LowerName(k)))
    decreases |k|
  {
    hide FieldByte, Reads;
    if k == "" {
      assert s + LowerName(k) == s;
    } else {
      var ch := k[0];
      ByteReads(m, ch, s);
      assert s + LowerName(k) == (s + [TokenLower(ch)]) + LowerName(k[1..]);
      if FieldByte(m, ch).errno.Ok? { NameRunReads(FieldByte(m, ch).m, k[1..], s + [TokenLower(ch)]); }
    }
  }

  /**
   A complete field name is taken for a framing word exactly when it is one,
   whatever its case.
   */
  lemma NameMeans(m: Matcher, k: string, h: HeaderState)
    requires k != "" && IsTokens(k) && Name(m, k).errno.Ok? && IsFraming(h)
    ensures Name(m, k).m.hs == h <==> Meaning(LowerName(k)) == Some(h)
  {
    var ch := k[0];
    StartReads(m, ch);
    assert LowerName(k) == [TokenLower(ch)] + LowerName(k[1..]);
    NameRunReads(NameStart(m, ch), k[1..], [TokenLower(ch)]);
    var r := Name(m, k).m;
    var n := LowerName(k);
    assert Reads(r.hs, r.index, n);
    ReadsMeans(r.hs, r.index, n, h);
  }

  lemma ReadsMeans(g: HeaderState, index: nat, s: string, h: HeaderState)
    requires Reads(g, index, s) && IsFraming(h)
    ensures g == h <==> Meaning(s) == Some(h)
  {
    assert |CONNECTION| == 10 && |PROXY_CONNECTION| == 16 && |CONTENT_LENGTH| == 14;
    assert |TRANSFER_ENCODING| == 17 && |UPGRADE| == 7;
    if Meaning(s).Some? {
      assert Begins(s, s);
      assert !Alien(s) && |s| > 6;
      assert s[0] in "cptu" && s[3] in "nxtr";
    }
  }

  /* ---- what a name does to the flags ---------------------------------- */

  /** `F_CONTENTLENGTH` after the octets `s` of a name. */
  function LengthFlag(f: Flags, s: string): Flags {
    f.(contentLength := f.contentLength || Begins(CONTENT_LENGTH, s))
  }

  lemma ByteFlags(m: Matcher, ch: char)
    requires IsToken(ch)
    ensures
      var r := FieldByte(m, ch);
      && r.m.contentLength == m.contentLength
      && (r.errno.Ok? ==>
            r.m.flags == if r.m.hs.HContentLength? then m.flags.(contentLength := true) else m.flags)
      && (r.errno.Ok? && r.m.hs.HContentLength? ==> !m.flags.contentLength)
  {
  }

  lemma BeginsMore(s: string, c: char)
    ensures Begins(CONTENT_LENGTH, s + [c]) <==> Begins(CONTENT_LENGTH, s) || s + [c] == CONTENT_LENGTH
  {
    var t := s + [c];
    assert |CONTENT_LENGTH| == 14;
    if |s| >= 14 && Begins(CONTENT_LENGTH, t) {
      forall i | 0 <= i < 14 ensures CONTENT_LENGTH[i] == s[i] { assert t[i] == s[i]; }
    }
    if |s| == 13 && Begins(CONTENT_LENGTH, t) { assert t == CONTENT_LENGTH; }
  }

  lemma {:induction false} NameRunFlags(m: Matcher, k: string, s: string, f: Flags)
    requires IsTokens(k) && Reads(m.hs, m.index, s) && s != "" && m.flags == LengthFlag(f, s)
    ensures
      var r := NameRun(m, k);
      && r.m.contentLength == m.contentLength
      && (r.errno.Ok? ==> r.m.flags == LengthFlag(f, s + LowerName(k)))
      && (!r.errno.Ok? ==>
            f.contentLength && r.errno.UnexpectedContentLength? && Begins(CONTENT_LENGTH, s + LowerName(k)))
      && (r.errno.Ok? && !Begins(CONTENT_LENGTH, s) && Begins(CONTENT_LENGTH, s + LowerName(k)) ==> !f.contentLength)
    decreases |k|
  {
    hide FieldByte, Reads, Begins;
    if k == "" {
      assert s + LowerName(k) == s;
    } else {
      var ch := k[0];
      var t := s + [TokenLower(ch)];
      ByteReads(m, ch, s);
      ByteFlags(m, ch);
      BeginsMore(s, TokenLower(ch));
      assert s + LowerName(k) == t + LowerName(k[1..]);
      var r := FieldByte(m, ch);
      if r.errno.Ok? {
        ReadsMeans(r.m.hs, r.m.index, t, HContentLength);
        MeansLength(t);
        NameRunFlags(r.m, k[1..], t, f);
      } else {
        LengthGoesOn(t, LowerName(k[1..]));
        ErrorIsLength(m, ch);
        NotYet(s, TokenLower(ch));
      }
    }
  }

  lemma MeansLength(s: string)
    ensures Meaning(s) == Some(HContentLength) <==> s == CONTENT_LENGTH
  {
  }

  lemma LengthGoesOn(s: string, t: string)
    requires Begins(CONTENT_LENGTH, s)
    ensures Begins(CONTENT_LENGTH, s + t)
  {
    forall i | 0 <= i < |CONTENT_LENGTH| ensures (s + t)[i] == CONTENT_LENGTH[i] { assert (s + t)[i] == s[i]; }
  }

  lemma ErrorIsLength(m: Matcher, ch: char)
    requires IsToken(ch) && !FieldByte(m, ch).errno.Ok?
    ensures FieldByte(m, ch).errno.UnexpectedContentLength? && m.flags.contentLength
  {
  }

  lemma NotYet(s: string, c: char)
    requires s + [c] == CONTENT_LENGTH
    ensures !Begins(CONTENT_LENGTH, s) && Begins(CONTENT_LENGTH, s + [c])
  {
    assert |s| == 13;
  }

  /**
   A field name touches nothing but `F_CONTENTLENGTH`, which any name that
   begins with "content-length" sets; a second one is an error.
   */
  lemma NameFlags(m: Matcher, k: string)
    requires k != "" && IsTokens(k)
    ensures
      var r := Name(m, k);
      && (r.errno.Ok? <==> !(m.flags.contentLength && Begins(CONTENT_LENGTH, LowerName(k))))
      && (!r.errno.Ok? ==> r.errno.UnexpectedContentLength?)
      && r.m.contentLength == m.contentLength
      && (r.errno.Ok? ==> r.m.flags == LengthFlag(m.flags, LowerName(k)))
  {
    hide Begins;
    var ch := k[0];
    StartReads(m, ch);
    assert LowerName(k) == [TokenLower(ch)] + LowerName(k[1..]);
    OneIsNotLength(TokenLower(ch));
    NameRunFlags(NameStart(m, ch), k[1..], [TokenLower(ch)], m.flags);
  }

  lemma OneIsNotLength(c: char)
    ensures !Begins(CONTENT_LENGTH, [c])
  {
    assert |CONTENT_LENGTH| == 14;
  }
}
