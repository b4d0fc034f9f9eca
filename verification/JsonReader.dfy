/**
 The scanner and the parser of JSON as they are written: one object that moves a
 cursor over the text, and one that keeps the last token while it descends.
 */
module JsonReader {
  import opened Ascii
  import opened Numerals
  import opened JsonText
  import opened JsonLexer
  import opened JsonValue
  import opened JsonParser

  lemma {:induction false} SpacesAreSkipped(s: string, i: nat, k: nat)
    requires i <= k <= |s| && forall n :: i <= n < k ==> IsSpace(s[n])
    ensures Scan(s, i) == Scan(s, k)
    decreases k - i
  {
    if i < k {
      assert Scan(s, i) == Scan(s, i + 1);
      SpacesAreSkipped(s, i + 1, k);
    }
  }

  class Lexer {
    const content: string
    var start: nat
    var cursor: nat

    constructor (content: string)
      ensures this.content == content && start == cursor == 0
    {
      this.content := content;
      start, cursor := 0, 0;
    }

    /** The scanner's loop over digits. */
    method Digits()
      requires cursor <= |content|
      modifies this`cursor
      ensures cursor == DigitsEnd(content, old(cursor))
    {
      while IsNum(At(content, cursor))
        invariant cursor <= |content| && DigitsEnd(content, cursor) == DigitsEnd(content, old(cursor))
        decreases |content| - cursor
      {
        cursor := cursor + 1;
      }
    }

    /** The fraction and the exponent; the marker is where the scanner goes back to. */
    method NumberRest()
      requires cursor <= |content|
      modifies this`cursor
      ensures cursor == NumberEnd(content, old(cursor))
    {
      hide DigitsEnd;
      if At(content, cursor) == '.' && IsNum(At(content, cursor + 1)) {
        cursor := cursor + 1;
        Digits();
      }
      if At(content, cursor) == 'e' || At(content, cursor) == 'E' {
        var marker := cursor;
        cursor := cursor + 1;
        if At(content, cursor) == '+' || At(content, cursor) == '-' { cursor := cursor + 1; }
        if IsNum(At(content, cursor)) { Digits(); } else { cursor := marker; }
      }
    }

    /** The scanner's states between the quotes of a string. */
    method StringRest() returns (ok: bool)
      requires cursor <= |content|
      modifies this`cursor
      ensures StringEnd(content, old(cursor)) == if ok then Ok(cursor) else Error("")
      ensures cursor <= |content|
    {
      while true
        invariant cursor <= |content| && StringEnd(content, cursor) == StringEnd(content, old(cursor))
        decreases |content| - cursor
      {
        var c := At(content, cursor);
        if c as int <= 0x0F { return false; }
        if c == '"' {
          cursor := cursor + 1;
          return true;
        }
        if c != '\\' {
          cursor := cursor + 1;
        } else if IsSimpleEscape(At(content, cursor + 1)) {
          cursor := cursor + 2;
        } else if At(content, cursor + 1) == 'u' && HexAt(content, cursor + 2) {
          cursor := cursor + 6;
        } else {
          return false;
        }
      }
    }

    method Word(word: string, kind: TokenType) returns (k: TokenType)
      requires cursor <= |content| && word != ""
      modifies this`cursor
      ensures Token(k, old(cursor), cursor) == Literal(content, old(cursor), word, kind)
    {
      if cursor + |word| <= |content| && content[cursor..cursor + |word|] == word {
        cursor := cursor + |word|;
        return kind;
      }
      cursor := cursor + 1;
      return ParseError;
    }

    /** `scan` */
    method Scan() returns (k: TokenType)
      requires cursor <= |content|
      modifies this
      ensures Token(k, start, cursor) == JsonLexer.Scan(content, old(cursor))
      decreases |content| - cursor
    {
      hide StringEnd, NumberEnd, DigitsEnd, Literal;
      start := cursor;
      var c := At(content, cursor);
      if IsSpace(c) {
        while IsSpace(At(content, cursor))
          invariant old(cursor) <= cursor <= |content|
          invariant forall n :: old(cursor) <= n < cursor ==> IsSpace(content[n])
          decreases |content| - cursor
        {
          cursor := cursor + 1;
        }
        SpacesAreSkipped(content, old(cursor), cursor);
        k := Scan();
      } else if c == '"' {
        cursor := cursor + 1;
        var ok := StringRest();
        if ok { return ValueString; }
        cursor := start + 1;
        k := ParseError;
      } else if c == '-' {
        cursor := cursor + 1;
        if At(content, cursor) == '0' {
          cursor := cursor + 1;
          NumberRest();
          k := ValueNumber;
        } else if IsNum(At(content, cursor)) {
          Digits();
          NumberRest();
          k := ValueNumber;
        } else {
          k := ParseError;
        }
      } else if c == '0' {
        cursor := cursor + 1;
        NumberRest();
        k := ValueNumber;
      } else if IsNum(c) {
        cursor := cursor + 1;
        Digits();
        NumberRest();
        k := ValueNumber;
      } else if c == 't' {
        k := Word("true", LiteralTrue);
      } else if c == 'f' {
        k := Word("false", LiteralFalse);
      } else if c == 'n' {
        k := Word("null", LiteralNull);
      } else if c == 0xEF as char && At(content, cursor + 1) == 0xBB as char
        && At(content, cursor + 2) == 0xBF as char {
        cursor := cursor + 3;
        k := Scan();
      } else {
        cursor := cursor + 1;
        k := if c == NUL then EndOfInput else if c == ',' then ValueSeparator else if c == ':' then NameSeparator
             else if c == '[' then BeginArray else if c == ']' then EndArray
             else if c == '{' then BeginObject else if c == '}' then EndObject else ParseError;
      }
    }

    /** One round of `get_string`: a plain character or one escape. */
    method Piece(text: string, i: nat) returns (next: nat, piece: Result<string>)
      requires i < |text| && WellEscaped(text[i..])
      ensures piece.Ok? ==> i < next <= |text| && WellEscaped(text[next..])
      ensures Unescape(text[i..]) == Prepend(piece, if piece.Ok? then Unescape(text[next..]) else Ok(""))
    {
      hide ToUnicode, SimpleEscape, IsSimpleEscape, Unescape, WellEscaped, Hex4, IsHex4, IsHigh;
      ghost var rest := text[i..];
      UnescapeStep(rest);
      assert forall n :: 0 <= n <= |rest| ==> rest[n..] == text[i + n..];
      if text[i] != '\\' { return i + 1, Ok([text[i]]); }
      if text[i + 1] != 'u' { return i + 2, Ok([SimpleEscape(text[i + 1])]); }
      assert rest[2..6] == text[i + 2..i + 6];
      var code := Hex4(text[i + 2..i + 6]);
      if !IsHigh(code) { return i + 6, ToUnicode(code, 0); }
      if i + 7 >= |text| || text[i + 6] != '\\' || text[i + 7] != 'u' { return |text|, Error("missing low surrogate"); }
      assert rest[8..12] == text[i + 8..i + 12];
      return i + 12, ToUnicode(code, Hex4(text[i + 8..i + 12]));
    }

    /** `get_string`: the text between the quotes, piece by piece. */
    method GetString() returns (r: Result<string>)
      requires start + 2 <= cursor <= |content| && WellEscaped(content[start + 1..cursor - 1])
      ensures r == Unescape(content[start + 1..cursor - 1])
    {
      var text := content[start + 1..cursor - 1];
      var result := "";
      var i := 0;
      assert text[0..] == text;
      PrependEmpty(Unescape(text));
      NothingToUnescape();
      hide ToUnicode, SimpleEscape, IsSimpleEscape, Unescape, WellEscaped, Hex4, IsHex4, IsHigh, Prepend;
      while i < |text|
        invariant i <= |text| && WellEscaped(text[i..])
        invariant Unescape(text) == Prepend(Ok(result), Unescape(text[i..]))
      {
        var next, piece := Piece(text, i);
        PrependTwice(result, piece, if piece.Ok? then Unescape(text[next..]) else Ok(""));
        if piece.Error? { return piece; }
        result := result + piece.value;
        i := next;
      }
      assert text[i..] == "" && result + "" == result;
      r := Ok(result);
      PrependTwice("", r, Ok(""));
    }
  }

  lemma NothingToUnescape()
    ensures WellEscaped("") && Unescape("") == Ok("") && forall s: string :: Prepend(Ok(s), Ok("")) == Ok(s)
  {
    forall s: string ensures Prepend(Ok(s), Ok("")) == Ok(s) { assert s + "" == s; }
  }

  /** One round of `get_string`. */
  lemma UnescapeStep(s: string)
    requires WellEscaped(s) && s != ""
    ensures
      if s[0] != '\\' then WellEscaped(s[1..]) && Unescape(s) == Prepend(Ok([s[0]]), Unescape(s[1..]))
      else
        && |s| >= 2
        && if s[1] != 'u' then
             IsSimpleEscape(s[1]) && WellEscaped(s[2..])
             && Unescape(s) == Prepend(Ok([SimpleEscape(s[1])]), Unescape(s[2..]))
           else
             && |s| >= 6 && IsHex4(s[2..6]) && WellEscaped(s[6..])
             && var code := Hex4(s[2..6]);
                if !IsHigh(code) then Unescape(s) == Prepend(ToUnicode(code, 0), Unescape(s[6..]))
                else if !(|s| > 7 && s[6] == '\\' && s[7] == 'u') then
                  Unescape(s) == Prepend(Error("missing low surrogate"), Ok(""))
                else
                  && |s| >= 12 && IsHex4(s[8..12]) && WellEscaped(s[12..])
                  && Unescape(s) == Prepend(ToUnicode(code, Hex4(s[8..12])), Unescape(s[12..]))
  {
    if |s| > 7 && s[0] == '\\' && s[1] == 'u' && s[6] == '\\' && s[7] == 'u' { NextIsCode(s); }
  }

  lemma PrependEmpty(r: Result<string>)
    ensures Prepend(Ok(""), r) == r
  {
    if r.Ok? { assert "" + r.value == r.value; }
  }

  lemma PrependTwice(a: string, b: Result<string>, r: Result<string>)
    ensures Prepend(Ok(a), Prepend(b, r)) == if b.Error? then b else Prepend(Ok(a + b.value), r)
  {
    if b.Ok? && r.Ok? { assert a + (b.value + r.value) == a + b.value + r.value; }
  }

  lemma SliceMore(s: string, i: nat, e: nat)
    requires i <= e < |s|
    ensures s[i..e + 1] == s[i..e] + [s[e]]
  {
  }

  /** `strtoull`, unbounded: the digits at `i` and what they are worth. */
  method ToNumber(s: string, i: nat) returns (end: nat, v: nat)
    requires i <= |s|
    ensures end == DigitsEnd(s, i) && IsDigits(s[i..end]) && v == Decimal(s[i..end])
  {
    end, v := i, 0;
    assert s[i..i] == "";
    while IsNum(At(s, end))
      invariant i <= end <= |s| && DigitsEnd(s, end) == DigitsEnd(s, i)
      invariant IsDigits(s[i..end]) && v == Decimal(s[i..end])
      decreases |s| - end
    {
      DecimalMore(s[i..end], s[end]);
      SliceMore(s, i, end);
      v := v * 10 + DigitValue(s[end]);
      end := end + 1;
    }
  }

  /** `parser`: the last token, and the descent. */
  class Parser {
    const lexer: Lexer
    var lastToken: TokenType

    ghost function Last(): Token
      reads this, lexer
    {
      Token(lastToken, lexer.start, lexer.cursor)
    }

    /** Reads the first token. */
    constructor (s: string)
      ensures lexer.content == s && fresh(lexer) && Last() == Next(s, 0)
    {
      lexer := new Lexer(s);
      new;
      GetToken();
    }

    method GetToken()
      requires lexer.cursor <= |lexer.content|
      modifies this, lexer
      ensures Last() == Next(lexer.content, old(lexer.cursor))
    {
      lastToken := lexer.Scan();
    }

    /** `get_number`, for the token just read. */
    method GetNumber() returns (r: Result<Json>)
      requires Readable(lexer.content, Last()) && lastToken.ValueNumber?
      ensures r == JsonParser.GetNumber(lexer.content, Last())
    {
      hide Decimal, DigitsEnd, IsDigits;
      var s, i := lexer.content, lexer.start;
      var negative := s[i] == '-';
      if negative { i := i + 1; }
      var end, v := ToNumber(s, i);
      if end == lexer.cursor && !negative && v <= U64_MAX { return Ok(Unsigned(v)); }
      if end == lexer.cursor && negative && v <= I64_MAX + 1 { return Ok(Integer(-v)); }
      if end > lexer.cursor || (end == lexer.cursor && At(s, end) == '.') { return Error("not a number"); }
      return Ok(Float(s[lexer.start..lexer.cursor]));
    }

    /** How a result and the token that is now the last one answer the specification. */
    ghost predicate Answers(r: Result<Json>, e: Result<(Json, Token)>)
      reads this, lexer
    {
      if r.Ok? then e == Ok((r.value, Last())) else e == Error(r.reason)
    }

    method Scalar(value: Json) returns (r: Result<Json>)
      requires lexer.cursor <= |lexer.content|
      modifies this, lexer
      ensures r == Ok(value) && Last() == Next(lexer.content, old(lexer.cursor))
    {
      GetToken();
      r := Ok(value);
    }

    /** `parse_internal` */
    method ParseInternal() returns (r: Result<Json>)
      requires Readable(lexer.content, Last())
      modifies this, lexer
      ensures Answers(r, ParseValue(lexer.content, old(Last())))
      decreases |lexer.content| + 1 - lexer.cursor, 1
    {
      hide Next, Unescape, WellEscaped, JsonParser.GetNumber;
      match lastToken
      case BeginObject =>
        GetToken();
        if lastToken == EndObject {
          r := Scalar(Object([]));
        } else if lastToken == ValueSeparator {
          r := Error("unexpected separator");
        } else {
          r := Members();
        }
      case BeginArray =>
        GetToken();
        if lastToken == EndArray {
          r := Scalar(Array([]));
        } else if lastToken == ValueSeparator {
          r := Error("unexpected separator");
        } else {
          r := Elements();
        }
      case LiteralNull => r := Scalar(Null);
      case LiteralTrue => r := Scalar(Boolean(true));
      case LiteralFalse => r := Scalar(Boolean(false));
      case ValueString =>
        var v := lexer.GetString();
        if v.Error? { return Error(v.reason); }
        r := Scalar(Str(v.value));
      case ValueNumber =>
        r := GetNumber();
        if r.Error? { return; }
        GetToken();
      case _ => r := Error("unexpected token");
    }

    /** The loop over the elements of an array. */
    method Elements() returns (r: Result<Json>)
      requires Readable(lexer.content, Last())
      modifies this, lexer
      ensures Answers(r, ParseElements(lexer.content, old(Last()), []))
      decreases |lexer.content| + 1 - lexer.cursor, 2
    {
      hide Next, ParseValue;
      var es := [];
      while true
        invariant Readable(lexer.content, Last()) && old(lexer.cursor) <= lexer.cursor
        invariant ParseElements(lexer.content, Last(), es) == ParseElements(lexer.content, old(Last()), [])
        decreases |lexer.content| + 1 - lexer.cursor
      {
        var v := ParseInternal();
        if v.Error? { return v; }
        es := es + [v.value];
        if lastToken != ValueSeparator { break; }
        GetToken();
      }
      if lastToken != EndArray { return Error("expected ']'"); }
      r := Scalar(Array(es));
    }

    /** The loop over the members of an object. */
    method Members() returns (r: Result<Json>)
      requires Readable(lexer.content, Last())
      modifies this, lexer
      ensures Answers(r, ParseMembers(lexer.content, old(Last()), []))
      decreases |lexer.content| + 1 - lexer.cursor, 2
    {
      hide Next, ParseValue, Unescape, WellEscaped;
      var ms := [];
      while true
        invariant Readable(lexer.content, Last()) && old(lexer.cursor) <= lexer.cursor
        invariant ParseMembers(lexer.content, Last(), ms) == ParseMembers(lexer.content, old(Last()), [])
        decreases |lexer.content| + 1 - lexer.cursor
      {
        if lastToken != ValueString { return Error("expected string literal"); }
        var key := lexer.GetString();
        if key.Error? { return Error(key.reason); }
        GetToken();
        if lastToken != NameSeparator { return Error("expected ':'"); }
        GetToken();
        var v := ParseInternal();
        if v.Error? { return v; }
        ms := Put(ms, key.value, v.value);
        if lastToken != ValueSeparator { break; }
        GetToken();
      }
      if lastToken != EndObject { return Error("expected '}'"); }
      r := Scalar(Object(ms));
    }
  }

  lemma DecimalMore(s: string, c: char)
    requires IsDigits(s) && IsNum(c)
    ensures IsDigits(s + [c]) && Decimal(s + [c]) == Decimal(s) * 10 + DigitValue(c)
  {
    var t := s + [c];
    assert forall i :: 0 <= i < |t| ==> t[i] == if i < |s| then s[i] else c;
    assert t[..|t| - 1] == s;
  }

  /** `parse` */
  method ParseText(s: string) returns (r: Result<Json>)
    ensures r == JsonParser.Parse(s)
  {
    hide ParseValue, Next;
    var p := new Parser(s);
    r := p.ParseInternal();
    if r.Error? { return; }
    if p.lastToken != EndOfInput { r := Error("expected end of input"); }
  }
}
