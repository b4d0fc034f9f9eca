/**
 What the matcher of field values recognises: a decimal length, the "chunked"
 coding, and nothing that changes the framing otherwise.
 */
module FieldValues {
  import opened Ascii
  import opened Numerals
  import opened ParserTypes
  import opened ParserStep
  import opened ParserInvariant

  /** The matcher over octets of a value; an error stops it. */
  function ValueRun(m: Matcher, s: string): Matched
    decreases |s|
  {
    if s == "" then Now(m)
    else
      var r := ValueByte(m, s[0]);
      if r.errno.Ok? then ValueRun(r.m, s[1..]) else r
  }

  /** The matcher over a whole value. */
  function ValueOf(m: Matcher, v: string): Matched
    requires v != ""
  {
    var r := FirstValueByte(m, v[0]);
    if r.errno.Ok? then ValueRun(r.m, v[1..]) else r
  }

  /* ---- Content-Length ------------------------------------------------- */

  /** Digits are accepted as long as the value stays well below the sentinel. */
  lemma {:induction false} DigitsRun(m: Matcher, s: string)
    requires m.hs.HContentLength? && IsDigits(s) && m.contentLength < U64_MAX
    ensures
      var r := ValueRun(m, s);
      && (r.errno.Ok? ==> r.m == m.(contentLength := DecimalFrom(m.contentLength, s)) && r.m.contentLength < U64_MAX)
      && (!r.errno.Ok? ==> DecimalFrom(m.contentLength, s) > U64_MAX - 16)
    decreases |s|
  {
    if s != "" {
      var d := DigitValue(s[0]);
      hide AddToLength;
      AddToLengthExact(m, 10, d);
      assert s[0] != SP;
      if ValueByte(m, s[0]).errno.Ok? {
        DigitsRun(ValueByte(m, s[0]).m, s[1..]);
      } else {
        DecimalGrows(m.contentLength * 10 + d, s[1..]);
      }
    }
  }

  /**
   `content_length` is the exact decimal value of the field, or the field is
   refused because that value is within 16 of 2^64: never a wrapped value, and
   never the "no length" sentinel.
   */
  lemma LengthIsExact(m: Matcher, v: string)
    requires m.hs.HContentLength? && v != "" && IsDigits(v)
    ensures
      var r := ValueOf(m, v);
      && (r.errno.Ok? ==> r.m == m.(index := 0, contentLength := Decimal(v)) && Decimal(v) < U64_MAX)
      && (!r.errno.Ok? ==> r.errno.InvalidContentLength? && Decimal(v) > U64_MAX - 16)
  {
    var r := FirstValueByte(m, v[0]);
    DigitsRun(r.m, v[1..]);
    DecimalAgree(v);
    assert DecimalFrom(0, v) == DecimalFrom(0 * 10 + DigitValue(v[0]), v[1..]);
    LengthErrors(r.m, v[1..]);
  }

  lemma {:induction false} LengthErrors(m: Matcher, s: string)
    requires m.hs.HContentLength?
    ensures ValueRun(m, s).errno.Ok? || ValueRun(m, s).errno.InvalidContentLength?
    decreases |s|
  {
    if s != "" && ValueByte(m, s[0]).errno.Ok? { LengthErrors(ValueByte(m, s[0]).m, s[1..]); }
  }

  /* ---- Transfer-Encoding ---------------------------------------------- */

  /** "chunked" in any case, then spaces. */
  predicate IsChunkedText(v: string) {
    |v| >= 7 && (forall i :: 0 <= i < 7 ==> Lower(v[i]) == "chunked"[i]) && forall i :: 7 <= i < |v| ==> v[i] == SP
  }

  /** The matcher's state says what has been read of a transfer coding. */
  predicate ReadsCoding(h: HeaderState, index: nat, s: string) {
    if h.MatchingChunked? then index < 6 && |s| == index + 1 && forall i :: 0 <= i < |s| ==> Lower(s[i]) == CHUNKED[i]
    else if h.HChunked? then IsChunkedText(s)
    else h.General? && !IsChunkedText(s) && (|s| < 7 ==> exists i :: 0 <= i < |s| && Lower(s[i]) != CHUNKED[i])
  }

  lemma CodingByte(m: Matcher, ch: char, s: string)
    requires ReadsCoding(m.hs, m.index, s)
    ensures
      var r := ValueByte(m, ch);
      && r.errno.Ok? && ReadsCoding(r.m.hs, r.m.index, s + [ch])
      && r.m.flags == m.flags && r.m.contentLength == m.contentLength
  {
    var t := s + [ch];
    var r := ValueByte(m, ch);
    assert |CHUNKED| == 7 && t[|s|] == ch;
    assert forall i :: 0 <= i < |s| ==> t[i] == s[i];
    if m.hs.General? {
      if |s| < 7 {
        var i :| 0 <= i < |s| && Lower(s[i]) != CHUNKED[i];
        assert Lower(t[i]) != CHUNKED[i];
      } else {
        assert IsChunkedText(t) ==> IsChunkedText(s);
      }
    } else if m.hs.MatchingChunked? && r.m.hs.General? {
      assert Lower(t[|s|]) != CHUNKED[|s|];
    }
  }

  lemma {:induction false} CodingRun(m: Matcher, v: string, s: string)
    requires ReadsCoding(m.hs, m.index, s)
    ensures
      var r := ValueRun(m, v);
      && r.errno.Ok? && ReadsCoding(r.m.hs, r.m.index, s + v)
      && r.m.flags == m.flags && r.m.contentLength == m.contentLength
    decreases |v|
  {
    hide ValueByte, ReadsCoding;
    if v == "" {
      assert s + v == s;
    } else {
      CodingByte(m, v[0], s);
      assert s + v == (s + [v[0]]) + v[1..];
      CodingRun(ValueByte(m, v[0]).m, v[1..], s + [v[0]]);
    }
  }

  /** The chunked flag will be set exactly for the "chunked" coding, in any case, with trailing spaces. */
  lemma CodingMeans(m: Matcher, v: string)
    requires m.hs.HTransferEncoding? && v != ""
    ensures
      var r := ValueOf(m, v);
      && r.errno.Ok? && r.m.flags == m.flags && r.m.contentLength == m.contentLength
      && TokenFlags(r.m).flags == (if IsChunkedText(v) then m.flags.(chunked := true) else m.flags)
  {
    hide ValueByte;
    var r := FirstValueByte(m, v[0]);
    assert |CHUNKED| == 7 && CHUNKED[0] == 'c';
    var s := [v[0]];
    assert s[0] == v[0];
    CodingRun(r.m, v[1..], s);
    assert s + v[1..] == v;
  }

  /* ---- everything else ------------------------------------------------ */

  /** What decides the framing of a message. */
  datatype Framing = Framing(chunked: bool, lengthSeen: bool, length: nat, trailing: bool, skipBody: bool)

  function FramingOf(m: Matcher): Framing {
    Framing(m.flags.chunked, m.flags.contentLength, m.contentLength, m.flags.trailing, m.flags.skipBody)
  }

  /** The header states of values that do not influence the framing. */
  predicate Harmless(h: HeaderState) {
    h.General? || h.MatchingTokenStart? || h.MatchingKeepAlive? || h.MatchingClose? || h.MatchingConnUpgrade?
    || h.MatchingToken? || h.HKeepAlive? || h.HClose? || h.HConnUpgrade?
  }

  lemma HarmlessByte(m: Matcher, ch: char)
    requires Harmless(m.hs)
    ensures
      var r := ValueByte(m, ch);
      r.errno.Ok? && Harmless(r.m.hs) && FramingOf(r.m) == FramingOf(m) && r.m.flags.upgrade == m.flags.upgrade
  {
    hide Lower;
  }

  lemma {:induction false} HarmlessRun(m: Matcher, v: string)
    requires Harmless(m.hs)
    ensures
      var r := ValueRun(m, v);
      r.errno.Ok? && Harmless(r.m.hs) && FramingOf(r.m) == FramingOf(m) && r.m.flags.upgrade == m.flags.upgrade
    decreases |v|
  {
    hide ValueByte, Harmless, FramingOf;
    if v != "" {
      HarmlessByte(m, v[0]);
      HarmlessRun(ValueByte(m, v[0]).m, v[1..]);
    }
  }

  /** A value of any other field, and an empty one, leaves the framing alone and is never refused. */
  lemma OtherValue(m: Matcher, v: string)
    requires v != "" && !m.hs.HContentLength? && !m.hs.HTransferEncoding? && !m.hs.HChunked?
    ensures
      var r := ValueOf(m, v);
      && r.errno.Ok? && FramingOf(TokenFlags(r.m)) == FramingOf(m)
      && (!m.hs.HUpgrade? ==> TokenFlags(r.m).flags.upgrade == m.flags.upgrade)
  {
    hide ValueByte, FirstValueByte, FramingOf, TokenFlags;
    FirstFraming(m, v[0]);
    HarmlessRun(FirstValueByte(m, v[0]).m, v[1..]);
    TokenFraming(ValueOf(m, v).m);
  }

  lemma TokenFraming(m: Matcher)
    requires !m.hs.HChunked?
    ensures FramingOf(TokenFlags(m)) == FramingOf(m) && TokenFlags(m).flags.upgrade == m.flags.upgrade
  {
  }

  lemma FirstFraming(m: Matcher, ch: char)
    requires !m.hs.HContentLength? && !m.hs.HTransferEncoding? && !m.hs.HChunked?
    ensures
      var r := FirstValueByte(m, ch);
      && r.errno.Ok? && Harmless(r.m.hs) && FramingOf(r.m) == FramingOf(m)
      && (!m.hs.HUpgrade? ==> r.m.flags.upgrade == m.flags.upgrade)
  {
    hide Lower;
  }
}
