/** Escaped code points in JSON strings, and what is read for them. */
module JsonEscapes {
  import opened Ascii
  import opened JsonText
  import opened Numerals

  /** Four hexadecimal digits that spell a number. */
  predicate Spells(h: string, c: nat) {
    && |h| == 4 && c < 0x1_0000 && IsDigit16(h[0], c / 0x1000) && IsDigit16(h[1], c / 0x100 % 0x10)
    && IsDigit16(h[2], c / 0x10 % 0x10) && IsDigit16(h[3], c % 0x10)
  }

  /** The octets of a code point, in the shortest form (section 3 of RFC 3629). */
  predicate IsUtf8Of(u: string, c: nat) {
    && |u| == (if c < 0x80 then 1 else if c < 0x800 then 2 else if c < 0x1_0000 then 3 else 4)
    && (forall i :: 1 <= i < |u| ==> 0x80 <= u[i] as int < 0xC0)
    && (|u| == 1 ==> u[0] as int < 0x80) && (|u| == 2 ==> 0xC0 <= u[0] as int < 0xE0)
    && (|u| == 3 ==> 0xE0 <= u[0] as int < 0xF0) && (|u| == 4 ==> 0xF0 <= u[0] as int < 0xF8)
    && FromUtf8(u) == c
  }

  lemma CodeIs(h: string, c: nat)
    requires Spells(h, c)
    ensures IsHex4(h) && Hex4(h) == c
  {
    hide IsDigit16, Unhex;
    DigitIs(h[0], c / 0x1000);
    DigitIs(h[1], c / 0x100 % 0x10);
    DigitIs(h[2], c / 0x10 % 0x10);
    DigitIs(h[3], c % 0x10);
    assert c / 0x10 == c / 0x100 * 0x10 + c / 0x10 % 0x10 && c / 0x100 == c / 0x1000 * 0x10 + c / 0x100 % 0x10;
  }

  /** An escape in front of other text. */
  lemma EscapeText(h: string, c: nat, t: string)
    requires Spells(h, c)
    ensures
      var s := "\\u" + h + t;
      |s| >= 6 && s[0] == '\\' && s[1] == 'u' && s[2..6] == h && s[6..] == t && IsCodeEscape(s) && !IsPlain(s[0])
      && (WellEscaped(s) <==> WellEscaped(t))
  {
    CodeIs(h, c);
    hide IsHex4, Spells;
    var s := "\\u" + h + t;
    assert s[2..6] == h && s[6..] == t;
  }

  lemma NoSimpleEscape()
    ensures !IsSimpleEscape('u')
  {
  }

  /** A code point that is no surrogate, and a low surrogate as well, is read as its octets. */
  lemma CodeEscape(h: string, c: nat, t: string) returns (u: string)
    requires Spells(h, c) && !(0xD800 <= c <= 0xDBFF) && WellEscaped(t)
    ensures WellEscaped("\\u" + h + t) && IsUtf8Of(u, c)
    ensures Unescape("\\u" + h + t) == Prepend(Ok(u), Unescape(t))
  {
    EscapeText(h, c, t);
    CodeIs(h, c);
    NoSimpleEscape();
    Utf8Inverse(c);
    u := Utf8(c).value;
    hide Spells, IsHex4, Hex4, Utf8, FromUtf8, WellEscaped;
  }

  /** Two surrogates are read as the octets of the code point above 0xFFFF that they stand for. */
  lemma PairEscape(high: string, low: string, c: nat, t: string) returns (u: string)
    requires 0x1_0000 <= c <= 0x10_FFFF && WellEscaped(t)
    requires Spells(high, 0xD800 + (c - 0x1_0000) / 0x400) && Spells(low, 0xDC00 + (c - 0x1_0000) % 0x400)
    ensures WellEscaped("\\u" + high + ("\\u" + low + t)) && IsUtf8Of(u, c)
    ensures Unescape("\\u" + high + ("\\u" + low + t)) == Prepend(Ok(u), Unescape(t))
  {
    var a, b := 0xD800 + (c - 0x1_0000) / 0x400, 0xDC00 + (c - 0x1_0000) % 0x400;
    var rest := "\\u" + low + t;
    var s := "\\u" + high + rest;
    EscapeText(low, b, t);
    EscapeText(high, a, rest);
    CodeIs(high, a);
    CodeIs(low, b);
    NoSimpleEscape();
    PairsAreAll(c);
    PairsAreExact(a, b);
    Utf8Inverse(c);
    u := Utf8(c).value;
    hide Spells, IsHex4, Hex4, Utf8, FromUtf8, WellEscaped, Paired;
    assert s[6..] == rest;
    assert s[8..12] == rest[2..6] == low && s[12..] == rest[6..] == t && s[6] == rest[0] && s[7] == rest[1];
  }

  /** A high surrogate that no escaped code point follows is an error. */
  lemma LoneHigh(h: string, c: nat, t: string)
    requires Spells(h, c) && 0xD800 <= c <= 0xDBFF && WellEscaped(t)
    requires !(|t| > 1 && t[0] == '\\' && t[1] == 'u')
    ensures WellEscaped("\\u" + h + t) && Unescape("\\u" + h + t).Error?
  {
    var s := "\\u" + h + t;
    EscapeText(h, c, t);
    CodeIs(h, c);
    NoSimpleEscape();
    assert |t| > 1 ==> s[6] == t[0] && s[7] == t[1];
    hide Spells, IsHex4, Hex4, Utf8, WellEscaped;
  }

  /** So is one that another than a low surrogate follows. */
  lemma WrongLow(high: string, a: nat, low: string, b: nat, t: string)
    requires Spells(high, a) && 0xD800 <= a <= 0xDBFF && Spells(low, b) && !(0xDC00 <= b <= 0xDFFF) && WellEscaped(t)
    ensures WellEscaped("\\u" + high + ("\\u" + low + t)) && Unescape("\\u" + high + ("\\u" + low + t)).Error?
  {
    var rest := "\\u" + low + t;
    var s := "\\u" + high + rest;
    EscapeText(low, b, t);
    EscapeText(high, a, rest);
    CodeIs(high, a);
    CodeIs(low, b);
    NoSimpleEscape();
    hide Spells, IsHex4, Hex4, Utf8, WellEscaped;
    assert s[6..] == rest;
    assert s[8..12] == rest[2..6] == low && s[12..] == rest[6..] == t && s[6] == rest[0] && s[7] == rest[1];
  }

  /* ---- the short escapes, and what is escaped ------------------------------ */

  /** A short escape, and the number of its character. */
  predicate IsShort(e: char, c: nat) {
    || (e == '"' && c == 0x22) || (e == '\\' && c == 0x5C) || (e == '/' && c == 0x2F) || (e == 'b' && c == 8)
    || (e == 't' && c == 9) || (e == 'n' && c == 10) || (e == 'f' && c == 12) || (e == 'r' && c == 13)
  }

  lemma ShortEscape(e: char, c: nat, t: string)
    requires IsShort(e, c) && WellEscaped(t)
    ensures WellEscaped(['\\', e] + t) && Unescape(['\\', e] + t) == Prepend(Ok([c as char]), Unescape(t))
  {
    var s := ['\\', e] + t;
    assert s[0] == '\\' && s[1] == e && s[2..] == t;
  }

  /** What is printed for a character: its short escape, the escape of its number, or itself. */
  lemma EscapeMeans(c: char, e: char)
    ensures e != '/' && IsShort(e, c as int) ==> Escape([c]) == ['\\', e]
    ensures c as int < 0x20 && c as int !in [8, 9, 10, 12, 13] ==>
      |Escape([c])| == 6 && Escape([c])[..2] == "\\u" && Spells(Escape([c])[2..], c as int)
    ensures c as int >= 0x20 && c as int != 0x22 && c as int != 0x5C ==> Escape([c]) == [c]
  {
    assert [c][1..] == "" && Escape("") == "" && EscapeChar(c) + "" == EscapeChar(c);
  }

  /* ---- what is refused ------------------------------------------------------- */

  /** No other character escapes. */
  lemma NoOtherEscape(e: char, t: string)
    requires e !in "\"\\/bfnrtu"
    ensures !WellEscaped(['\\', e] + t)
  {
    var s := ['\\', e] + t;
    assert s[0] == '\\' && s[1] == e;
  }

  /** A code takes four hexadecimal digits. */
  lemma NoOtherCode(h: string, i: nat, t: string)
    requires i < |h| == 4 && forall d :: !IsDigit16(h[i], d)
    ensures !WellEscaped("\\u" + h + t)
  {
    NotHex(h[i]);
    hide Unhex;
    var s := "\\u" + h + t;
    assert s[0] == '\\' && s[1] == 'u' && s[2..6] == h;
  }

  /** A quote ends a string, and control characters below 0x10 may not stand in it. */
  lemma NoBareControl(c: char, t: string)
    requires c as int < 0x10 || c == '"'
    ensures !WellEscaped([c] + t)
  {
    var s := [c] + t;
    assert s[0] == c;
  }
}
