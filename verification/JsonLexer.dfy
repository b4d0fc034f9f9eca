/** The JSON scanner: tokens, and the values of string and number tokens. */
module JsonLexer {
  import opened Ascii
  import opened JsonText

  datatype TokenType =
    | LiteralTrue | LiteralFalse | LiteralNull | ValueString | ValueNumber
    | BeginArray | BeginObject | EndArray | EndObject | NameSeparator | ValueSeparator
    | ParseError | EndOfInput

  /** A token and the text that it covers. */
  datatype Token = Token(kind: TokenType, start: nat, end: nat)

  const NUL := 0 as char

  /** The text is read as a C string: there is a NUL behind it. */
  function At(s: string, i: nat): char { if i < |s| then s[i] else NUL }

  predicate IsSpace(c: char) { c == ' ' || c == '\t' || c == '\n' || c == '\r' }

  predicate HexAt(s: string, i: nat) { i + 4 <= |s| && IsHex4(s[i..i + 4]) }

  /* ---- strings -------------------------------------------------------- */

  /** The states of the scanner inside a string: from `i` to behind the closing quote, or failure. */
  function StringEnd(s: string, i: nat): Result<nat>
    requires i <= |s|
    decreases |s| - i
  {
    var c := At(s, i);
    if c as int <= 0x0F then Error("")
    else if c == '"' then Ok(i + 1)
    else if c != '\\' then StringEnd(s, i + 1)
    else if IsSimpleEscape(At(s, i + 1)) then StringEnd(s, i + 2)
    else if At(s, i + 1) == 'u' && HexAt(s, i + 2) then
      StringEnd(s, i + 6)
    else Error("")
  }

  /** A string token is exactly well-escaped text up to the first quote that ends it. */
  lemma {:induction false} StringEndMeans(s: string, i: nat, e: nat)
    requires i <= |s|
    ensures StringEnd(s, i) == Ok(e) <==> i < e <= |s| && s[e - 1] == '"' && WellEscaped(s[i..e - 1])
    decreases |s| - i
  {
    var c := At(s, i);
    if i == |s| {
    } else if IsPlain(c) {
      StringEndMeans(s, i + 1, e);
      if i + 1 < e <= |s| { assert s[i..e - 1][1..] == s[i + 1..e - 1] && s[i..e - 1][0] == c; }
    } else if c == '\\' {
      if IsSimpleEscape(At(s, i + 1)) {
        StringEndMeans(s, i + 2, e);
        EscapeInside(s, i, e);
      } else if At(s, i + 1) == 'u' && HexAt(s, i + 2) {
        StringEndMeans(s, i + 6, e);
        CodeInside(s, i, e);
      } else {
        BadEscape(s, i, e);
      }
    } else {
      if i < e - 1 <= |s| { assert s[i..e - 1][0] == c; }
    }
  }

  lemma SliceOfSlice(s: string, i: nat, j: nat, a: nat, b: nat)
    requires i <= j <= |s| && a <= b <= j - i
    ensures s[i..j][a..b] == s[i + a..i + b]
    ensures b == j - i ==> s[i..j][a..] == s[i + a..j]
  {
    var t := s[i..j];
    assert forall k :: 0 <= k < b - a ==> t[a..b][k] == t[a + k] == s[i + (a + k)];
    assert t[a..b] == s[i + a..i + b];
  }

  lemma EscapeInside(s: string, i: nat, e: nat)
    requires i < |s| && s[i] == '\\' && IsSimpleEscape(At(s, i + 1))
    ensures i < e <= |s| && s[e - 1] == '"' && WellEscaped(s[i..e - 1])
      <==> i + 2 < e <= |s| && s[e - 1] == '"' && WellEscaped(s[i + 2..e - 1])
  {
    if i < e - 1 <= |s| {
      var t := s[i..e - 1];
      assert t[0] == s[i];
      if |t| >= 2 { assert t[1] == s[i + 1] && t[2..] == s[i + 2..e - 1]; }
    }
  }

  lemma CodeInside(s: string, i: nat, e: nat)
    requires i < |s| && s[i] == '\\' && At(s, i + 1) == 'u'
    requires HexAt(s, i + 2)
    ensures i < e <= |s| && s[e - 1] == '"' && WellEscaped(s[i..e - 1])
      <==> i + 6 < e <= |s| && s[e - 1] == '"' && WellEscaped(s[i + 6..e - 1])
  {
    if i < e - 1 <= |s| {
      var t := s[i..e - 1];
      assert t[0] == s[i];
      if |t| >= 2 { assert t[1] == s[i + 1]; }
      if |t| >= 6 {
        SliceOfSlice(s, i, e - 1, 2, 6);
        SliceOfSlice(s, i, e - 1, 6, |t|);
      }
    }
  }

  lemma BadEscape(s: string, i: nat, e: nat)
    requires i < |s| && s[i] == '\\' && !IsSimpleEscape(At(s, i + 1))
    requires !(At(s, i + 1) == 'u' && HexAt(s, i + 2))
    ensures !(i < e <= |s| && s[e - 1] == '"' && WellEscaped(s[i..e - 1]))
  {
    if i < e - 1 <= |s| {
      var t := s[i..e - 1];
      assert t[0] == s[i];
      if |t| >= 2 { assert t[1] == s[i + 1]; }
      if |t| >= 6 { SliceOfSlice(s, i, e - 1, 2, 6); }
    }
  }

  /* ---- numbers -------------------------------------------------------- */

  function DigitsEnd(s: string, i: nat): (e: nat)
    requires i <= |s|
    ensures i <= e <= |s|
    decreases |s| - i
  {
    if IsNum(At(s, i)) then DigitsEnd(s, i + 1) else i
  }

  /** From an `e` or `E` at `i`: behind the exponent, or back to `i`. */
  function ExponentEnd(s: string, i: nat): (e: nat)
    requires i < |s|
    ensures i <= e <= |s|
  {
    var k := if At(s, i + 1) == '+' || At(s, i + 1) == '-' then i + 2 else i + 1;
    if IsNum(At(s, k)) then DigitsEnd(s, k) else i
  }

  /** Behind the fraction and the exponent that may follow an integer ending at `i`. */
  function NumberEnd(s: string, i: nat): (e: nat)
    requires i <= |s|
    ensures i <= e <= |s|
  {
    var k := if At(s, i) == '.' && IsNum(At(s, i + 1)) then DigitsEnd(s, i + 1) else i;
    if At(s, k) == 'e' || At(s, k) == 'E' then ExponentEnd(s, k) else k
  }

  /* ---- tokens --------------------------------------------------------- */

  function Literal(s: string, i: nat, word: string, kind: TokenType): Token {
    if i + |word| <= |s| && s[i..i + |word|] == word then Token(kind, i, i + |word|) else Token(ParseError, i, i + 1)
  }

  /** `scan`, from the cursor `i`. */
  function Scan(s: string, i: nat): (t: Token)
    requires i <= |s|
    ensures i <= t.start < t.end <= |s| + 1 && (t.end <= |s| || t.kind.EndOfInput?)
    decreases |s| - i
  {
    var c := At(s, i);
    if IsSpace(c) then Scan(s, i + 1)
    else if c == NUL then Token(EndOfInput, i, i + 1)
    else if c == '"' then
      var e := StringEnd(s, i + 1);
      if e.Ok? then (StringEndMeans(s, i + 1, e.value); Token(ValueString, i, e.value)) else Token(ParseError, i, i + 1)
    else if c == ',' then Token(ValueSeparator, i, i + 1)
    else if c == ':' then Token(NameSeparator, i, i + 1)
    else if c == '[' then Token(BeginArray, i, i + 1)
    else if c == ']' then Token(EndArray, i, i + 1)
    else if c == '{' then Token(BeginObject, i, i + 1)
    else if c == '}' then Token(EndObject, i, i + 1)
    else if c == '-' then
      if At(s, i + 1) == '0' then Token(ValueNumber, i, NumberEnd(s, i + 2))
      else if IsNum(At(s, i + 1)) then Token(ValueNumber, i, NumberEnd(s, DigitsEnd(s, i + 1)))
      else Token(ParseError, i, i + 1)
    else if c == '0' then Token(ValueNumber, i, NumberEnd(s, i + 1))
    else if IsNum(c) then Token(ValueNumber, i, NumberEnd(s, DigitsEnd(s, i + 1)))
    else if c == 't' then Literal(s, i, "true", LiteralTrue)
    else if c == 'f' then Literal(s, i, "false", LiteralFalse)
    else if c == 'n' then Literal(s, i, "null", LiteralNull)
    else if c == 0xEF as char && At(s, i + 1) == 0xBB as char && At(s, i + 2) == 0xBF as char then Scan(s, i + 3)
    else Token(ParseError, i, i + 1)
  }

  /** Which cases of the scan can give a string token. */
  lemma StringTokenCases(s: string, i: nat)
    requires i <= |s| && Scan(s, i).kind.ValueString?
    ensures
      var c := At(s, i);
      if IsSpace(c) then i < |s| && Scan(s, i) == Scan(s, i + 1)
      else if c == '"' then i < |s| && StringEnd(s, i + 1).Ok?
        && Scan(s, i) == Token(ValueString, i, StringEnd(s, i + 1).value)
      else i + 3 <= |s| && Scan(s, i) == Scan(s, i + 3)
  {
    hide StringEnd, NumberEnd, DigitsEnd, WellEscaped, IsSpace, IsNum;
  }

  /** The text between the quotes of a string token can be read. */
  lemma StringTokenIsEscaped(s: string, i: nat)
    requires i <= |s| && Scan(s, i).kind.ValueString?
    ensures
      var t := Scan(s, i);
      t.start + 2 <= t.end <= |s| && WellEscaped(s[t.start + 1..t.end - 1])
    decreases |s| - i
  {
    hide StringEnd, WellEscaped, IsSpace, Scan;
    var c := At(s, i);
    StringTokenCases(s, i);
    if IsSpace(c) {
      StringTokenIsEscaped(s, i + 1);
    } else if c == '"' {
      StringEndMeans(s, i + 1, StringEnd(s, i + 1).value);
    } else {
      StringTokenIsEscaped(s, i + 3);
    }
  }

  lemma NumberTokenStarts(s: string, i: nat)
    requires i <= |s| && Scan(s, i).kind.ValueNumber?
    ensures
      var t := Scan(s, i);
      && t.end <= |s| && (s[t.start] == '-' || IsNum(s[t.start]))
      && (s[t.start] == '-' ==> t.start + 1 < t.end && IsNum(s[t.start + 1]))
    decreases |s| - i
  {
    hide StringEnd;
    var c := At(s, i);
    if IsSpace(c) {
      NumberTokenStarts(s, i + 1);
    } else if c == 0xEF as char {
      NumberTokenStarts(s, i + 3);
    }
  }
}
