/**
 JSON strings (section 7 of RFC 7159): escaping, unescaping, and the UTF-8 that
 the `\u` escapes stand for.
 */
module JsonText {
  import opened Ascii

  datatype Result<+T> = Ok(value: T) | Error(reason: string)

  const BACKSPACE := 8 as char
  const FORMFEED := 12 as char

  /* ---- printing ------------------------------------------------------- */

  function Hexify(d: nat): char
    requires d < 16
  {
    if d < 10 then ('0' as int + d) as char else ('a' as int + d - 10) as char
  }

  function EscapeChar(c: char): string {
    if c == '"' then "\\\""
    else if c == '\\' then "\\\\"
    else if c == BACKSPACE then "\\b"
    else if c == FORMFEED then "\\f"
    else if c == '\n' then "\\n"
    else if c == '\r' then "\\r"
    else if c == '\t' then "\\t"
    else if c as int <= 0x1f then ['\\', 'u', '0', '0', Hexify(c as int / 16), Hexify(c as int % 16)]
    else [c]
  }

  function Escape(s: string): string {
    if s == "" then "" else EscapeChar(s[0]) + Escape(s[1..])
  }

  lemma {:induction false} EscapeConcat(s: string, t: string)
    ensures Escape(s + t) == Escape(s) + Escape(t)
    decreases |s|
  {
    hide EscapeChar;
    if s == "" {
      assert s + t == t;
    } else {
      assert (s + t)[0] == s[0] && (s + t)[1..] == s[1..] + t;
      EscapeConcat(s[1..], t);
    }
  }

  lemma EscapeNext(s: string, i: nat)
    requires i < |s|
    ensures Escape(s[..i + 1]) == Escape(s[..i]) + EscapeChar(s[i])
    ensures Escape(s[i..]) == EscapeChar(s[i]) + Escape(s[i + 1..])
  {
    hide EscapeChar;
    assert s[..i + 1] == s[..i] + [s[i]];
    EscapeConcat(s[..i], [s[i]]);
    assert Escape([s[i]]) == EscapeChar(s[i]) + Escape([s[i]][1..]);
    assert s[i..][1..] == s[i + 1..];
  }

  /** `extra_space`: how much longer a string gets. */
  method ExtraSpace(s: string) returns (result: nat)
    ensures |Escape(s)| == |s| + result
    ensures result == 0 ==> Escape(s) == s
  {
    result := 0;
    var i := 0;
    while i < |s|
      invariant i <= |s| && |Escape(s[..i])| == i + result
      invariant result == 0 ==> Escape(s[..i]) == s[..i]
    {
      EscapeNext(s, i);
      var c := s[i];
      if c == '"' || c == '\\' || c == BACKSPACE || c == FORMFEED || c == '\n' || c == '\r' || c == '\t' {
        result := result + 1;
      } else if c as int <= 0x1f {
        result := result + 5;
      }
      i := i + 1;
    }
    assert s[..i] == s;
  }

  /** The case of one character: positions that must not be a backslash are filled in. */
  method FillChar(result: array<char>, pos: nat, c: char) returns (next: nat)
    requires pos + |EscapeChar(c)| <= result.Length
    requires forall k :: pos <= k < result.Length ==> result[k] == '\\'
    modifies result
    ensures next == pos + |EscapeChar(c)| && result[pos..next] == EscapeChar(c)
    ensures result[..pos] == old(result[..pos])
    ensures forall k :: next <= k < result.Length ==> result[k] == '\\'
  {
    if c == '"' {
      result[pos + 1] := '"';
      return pos + 2;
    } else if c == '\\' {
      return pos + 2;
    } else if c == BACKSPACE {
      result[pos + 1] := 'b';
      return pos + 2;
    } else if c == FORMFEED {
      result[pos + 1] := 'f';
      return pos + 2;
    } else if c == '\n' {
      result[pos + 1] := 'n';
      return pos + 2;
    } else if c == '\r' {
      result[pos + 1] := 'r';
      return pos + 2;
    } else if c == '\t' {
      result[pos + 1] := 't';
      return pos + 2;
    } else if c as int <= 0x1f {
      result[pos + 1] := 'u';
      result[pos + 2] := '0';
      result[pos + 3] := '0';
      result[pos + 4] := Hexify(c as int / 16);
      result[pos + 5] := Hexify(c as int % 16);
      return pos + 6;
    }
    result[pos] := c;
    return pos + 1;
  }

  /**
   `escape_string`: the result starts out as backslashes of the right length, and
   every position that must be something else is filled in place.
   */
  method EscapeString(s: string) returns (escaped: string)
    ensures escaped == Escape(s)
  {
    hide EscapeChar, Escape;
    var space := ExtraSpace(s);
    if space == 0 { return s; }
    var result := new char[|s| + space](_ => '\\');
    var pos := 0;
    var i := 0;
    EscapeEmpty();
    assert s[0..] == s && s[..0] == "" && result[..0] == "";
    while i < |s|
      invariant i <= |s| && pos <= result.Length
      invariant result[..pos] == Escape(s[..i])
      invariant pos + |Escape(s[i..])| == result.Length
      invariant forall k :: pos <= k < result.Length ==> result[k] == '\\'
    {
      EscapeNext(s, i);
      ghost var from := pos;
      pos := FillChar(result, pos, s[i]);
      assert result[..pos] == result[..from] + result[from..pos];
      i := i + 1;
    }
    assert s[..i] == s && s[i..] == "";
    assert result[..pos] == result[..];
    escaped := result[..];
  }

  lemma EscapeEmpty()
    ensures Escape("") == ""
  {
  }

  /* ---- code points ---------------------------------------------------- */

  predicate IsHigh(c: nat) { 0xD800 <= c <= 0xDBFF }

  predicate IsLow(c: nat) { 0xDC00 <= c <= 0xDFFF }

  /** The code point of a surrogate pair. */
  function Paired(high: nat, low: nat): int { high * 0x400 + low - 0x35FDC00 }

  /** The octets of a code point, as `to_unicode` assembles them. */
  function Utf8(c: nat): Result<string> {
    if c < 0x80 then Ok([c as char])
    else if c <= 0x7ff then Ok([(0xC0 + c / 0x40 % 0x20) as char, (0x80 + c % 0x40) as char])
    else if c <= 0xffff then
      Ok([(0xE0 + c / 0x1000 % 0x10) as char, (0x80 + c / 0x40 % 0x40) as char, (0x80 + c % 0x40) as char])
    else if c <= 0x10ffff then
      Ok([(0xF0 + c / 0x40000 % 0x08) as char, (0x80 + c / 0x1000 % 0x40) as char,
          (0x80 + c / 0x40 % 0x40) as char, (0x80 + c % 0x40) as char])
    else Error("code points above 0x10FFFF are invalid")
  }

  function ToUnicode(codepoint1: nat, codepoint2: nat): Result<string> {
    if IsHigh(codepoint1) then
      if IsLow(codepoint2) then Utf8(Paired(codepoint1, codepoint2)) else Error("missing or wrong low surrogate")
    else Utf8(codepoint1)
  }

  /** The code point of a UTF-8 sequence (section 3 of RFC 3629), for sequences of the right length. */
  function FromUtf8(s: string): nat
    requires 1 <= |s| <= 4 && forall i :: 1 <= i < |s| ==> 0x80 <= s[i] as int
    requires |s| == 2 ==> 0xC0 <= s[0] as int
    requires |s| == 3 ==> 0xE0 <= s[0] as int
    requires |s| == 4 ==> 0xF0 <= s[0] as int
  {
    if |s| == 1 then s[0] as int
    else if |s| == 2 then (s[0] as int - 0xC0) * 0x40 + (s[1] as int - 0x80)
    else if |s| == 3 then (s[0] as int - 0xE0) * 0x1000 + (s[1] as int - 0x80) * 0x40 + (s[2] as int - 0x80)
    else
      (s[0] as int - 0xF0) * 0x40000 + (s[1] as int - 0x80) * 0x1000 + (s[2] as int - 0x80) * 0x40
      + (s[3] as int - 0x80)
  }

  /**
   Every number up to 0x10FFFF is encoded, in the shortest form, and comes back from
   its octets; the surrogates, which are not characters, are encoded like the rest.
   */
  lemma Utf8Inverse(c: nat)
    ensures Utf8(c).Ok? <==> c <= 0x10ffff
    ensures c <= 0x10ffff ==>
      var s := Utf8(c).value;
      && |s| == (if c < 0x80 then 1 else if c < 0x800 then 2 else if c < 0x1_0000 then 3 else 4)
        && (forall i :: 1 <= i < |s| ==> 0x80 <= s[i] as int < 0xC0)
      && (|s| == 1 ==> s[0] as int < 0x80) && (|s| == 2 ==> 0xC0 <= s[0] as int < 0xE0)
      && (|s| == 3 ==> 0xE0 <= s[0] as int < 0xF0) && (|s| == 4 ==> 0xF0 <= s[0] as int < 0xF8)
      && FromUtf8(s) == c
  {
    var (q, r, t) := (c / 0x40, c / 0x1000, c / 0x40000);
    Sixes(c);
    if c < 0x80 {
    } else if c <= 0x7ff {
      assert Utf8(c).value == [(0xC0 + q) as char, (0x80 + c % 0x40) as char];
    } else if c <= 0xffff {
      assert Utf8(c).value == [(0xE0 + r) as char, (0x80 + q % 0x40) as char, (0x80 + c % 0x40) as char];
    } else if c <= 0x10ffff {
      assert Utf8(c).value
        == [(0xF0 + t) as char, (0x80 + r % 0x40) as char, (0x80 + q % 0x40) as char, (0x80 + c % 0x40) as char];
    }
  }

  /** The bits of a number in groups of six. */
  lemma Sixes(c: nat)
    ensures c == (c / 0x40) * 0x40 + c % 0x40
    ensures c / 0x40 == (c / 0x1000) * 0x40 + c / 0x40 % 0x40
    ensures c / 0x1000 == (c / 0x40000) * 0x40 + c / 0x1000 % 0x40
  {
    assert c / 0x1000 == c / 0x40 / 0x40 && c / 0x40000 == c / 0x1000 / 0x40;
  }

  /** Surrogate pairs stand for exactly the code points above 0xFFFF, each for one. */
  lemma PairsAreExact(high: nat, low: nat)
    requires IsHigh(high) && IsLow(low)
    ensures 0x10000 <= Paired(high, low) <= 0x10ffff
    ensures ToUnicode(high, low) == Utf8(Paired(high, low)) && Utf8(Paired(high, low)).Ok?
    ensures high == 0xD800 + (Paired(high, low) - 0x10000) / 0x400
      && low == 0xDC00 + (Paired(high, low) - 0x10000) % 0x400
  {
    assert Paired(high, low) - 0x10000 == (high - 0xD800) * 0x400 + (low - 0xDC00);
  }

  lemma PairsAreAll(c: nat)
    requires 0x10000 <= c <= 0x10ffff
    ensures
      var high, low := 0xD800 + (c - 0x10000) / 0x400, 0xDC00 + (c - 0x10000) % 0x400;
      IsHigh(high) && IsLow(low) && Paired(high, low) == c
  {
  }

  /* ---- reading -------------------------------------------------------- */

  /** An octet that the lexer takes as it is, among them the control octets from 0x10 up. */
  predicate IsPlain(c: char) { c as int >= 0x10 && c != '"' && c != '\\' }

  predicate IsSimpleEscape(c: char) { c in "\"\\/bfnrt" }

  function SimpleEscape(c: char): char
    requires IsSimpleEscape(c)
  {
    if c == 't' then '\t' else if c == 'b' then BACKSPACE else if c == 'f' then FORMFEED
    else if c == 'n' then '\n' else if c == 'r' then '\r' else c
  }

  predicate IsHex4(s: string) { |s| == 4 && forall i :: 0 <= i < 4 ==> Unhex(s[i]) >= 0 }

  /** `strtoul` in base 16, on four hexadecimal digits. */
  function Hex4(s: string): nat
    requires IsHex4(s)
  {
    ((Unhex(s[0]) * 16 + Unhex(s[1])) * 16 + Unhex(s[2])) * 16 + Unhex(s[3])
  }

  predicate IsCodeEscape(s: string) { |s| >= 6 && s[0] == '\\' && s[1] == 'u' && IsHex4(s[2..6]) }

  /** What may stand between the quotes of a string token. */
  predicate WellEscaped(s: string)
    decreases |s|
  {
    if s == "" then true
    else if IsPlain(s[0]) then WellEscaped(s[1..])
    else if |s| >= 2 && s[0] == '\\' && IsSimpleEscape(s[1]) then WellEscaped(s[2..])
    else IsCodeEscape(s) && WellEscaped(s[6..])
  }

  function Prepend(r: Result<string>, rest: Result<string>): Result<string> {
    if r.Error? then r else if rest.Error? then rest else Ok(r.value + rest.value)
  }

  /** What `get_string` makes of the text between the quotes. */
  function Unescape(s: string): Result<string>
    requires WellEscaped(s)
    decreases |s|
  {
    if s == "" then Ok("")
    else if IsPlain(s[0]) then Prepend(Ok([s[0]]), Unescape(s[1..]))
    else if IsSimpleEscape(s[1]) then Prepend(Ok([SimpleEscape(s[1])]), Unescape(s[2..]))
    else
      var code := Hex4(s[2..6]);
      if !IsHigh(code) then Prepend(ToUnicode(code, 0), Unescape(s[6..]))
      else if !(|s| > 7 && s[6] == '\\' && s[7] == 'u') then Error("missing low surrogate")
      else
        NextIsCode(s);
        Prepend(ToUnicode(code, Hex4(s[8..12])), Unescape(s[12..]))
  }

  lemma NextIsCode(s: string)
    requires |s| > 7 && WellEscaped(s) && IsCodeEscape(s) && s[6] == '\\' && s[7] == 'u'
    ensures |s| >= 12 && IsHex4(s[8..12]) && WellEscaped(s[12..])
  {
    var t := s[6..];
    assert t[0] == s[6] && t[1] == s[7] && WellEscaped(t) && IsCodeEscape(t);
    assert t[2..6] == s[8..12] && t[6..] == s[12..];
  }

  /** An escaped character reads back as itself. */
  lemma EscapedChar(c: char, t: string)
    requires WellEscaped(t)
    ensures WellEscaped(EscapeChar(c) + t)
    ensures Unescape(EscapeChar(c) + t) == Prepend(Ok([c]), Unescape(t))
  {
    var e := EscapeChar(c);
    var s := e + t;
    if |e| == 1 {
      assert s[1..] == t;
    } else if |e| == 2 {
      assert s[2..] == t;
    } else {
      assert s[6..] == t && s[2..6] == e[2..6];
      HexifyInverse(c as int / 16);
      HexifyInverse(c as int % 16);
      assert e[2..6] == ['0', '0', Hexify(c as int / 16), Hexify(c as int % 16)];
      assert Hex4(e[2..6]) == c as int;
      assert ToUnicode(c as int, 0) == Ok([c]);
    }
  }

  lemma HexifyInverse(d: nat)
    requires d < 16
    ensures Unhex(Hexify(d)) == d
  {
  }

  /** Every string, whatever its octets, survives escaping and reading back. */
  lemma {:induction false} EscapeInverse(s: string)
    ensures WellEscaped(Escape(s)) && Unescape(Escape(s)) == Ok(s)
    decreases |s|
  {
    hide EscapeChar;
    if s != "" {
      EscapeInverse(s[1..]);
      EscapedChar(s[0], Escape(s[1..]));
      assert [s[0]] + s[1..] == s;
    }
  }
}
