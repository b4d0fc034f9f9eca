/** The recursive descent over the tokens of a JSON text. */
module JsonParser {
  import opened Ascii
  import opened Numerals
  import opened JsonText
  import opened JsonLexer
  import opened JsonValue

  /** A token that the scanner can have read. */
  predicate Readable(s: string, t: Token) {
    && t.start < t.end <= |s| + 1 && (t.end <= |s| || t.kind.EndOfInput?)
    && (t.kind.ValueString? ==> t.start + 2 <= t.end && WellEscaped(s[t.start + 1..t.end - 1]))
    && (t.kind.ValueNumber? ==>
          (s[t.start] == '-' || IsNum(s[t.start]))
            && (s[t.start] == '-' ==> t.start + 1 < t.end && IsNum(s[t.start + 1])))
  }

  /** `get_token`, after the token that ends at `i`. */
  function Next(s: string, i: nat): (t: Token)
    requires i <= |s|
    ensures Readable(s, t) && i < t.end
  {
    var t := Scan(s, i);
    if t.kind.ValueString? then (StringTokenIsEscaped(s, i); t)
    else if t.kind.ValueNumber? then (NumberTokenStarts(s, i); t)
    else t
  }

  lemma DigitsAreDigits(s: string, i: nat)
    requires i <= |s|
    ensures IsDigits(s[i..DigitsEnd(s, i)]) && (IsNum(At(s, i)) ==> i < DigitsEnd(s, i))
    decreases |s| - i
  {
    if IsNum(At(s, i)) {
      DigitsAreDigits(s, i + 1);
      var e := DigitsEnd(s, i);
      assert forall k :: 0 < k < e - i ==> s[i..e][k] == s[i + 1..e][k - 1];
    }
  }

  /**
   `get_number`: `strtoull` or `strtoll`, and `strtod` when they read something else
   than the token or the number is out of range; `strtod` also reads a dot behind it.
   */
  function GetNumber(s: string, t: Token): Result<Json>
    requires Readable(s, t) && t.kind.ValueNumber?
  {
    var negative := s[t.start] == '-';
    var first := if negative then t.start + 1 else t.start;
    var e := DigitsEnd(s, first);
    DigitsAreDigits(s, first);
    var v := Decimal(s[first..e]);
    if e == t.end && !negative && v <= U64_MAX then Ok(Unsigned(v))
    else if e == t.end && negative && v <= I64_MAX + 1 then Ok(Integer(-(v as int)))
    else if e > t.end || (e == t.end && At(s, e) == '.') then Error("not a number")
    else Ok(Float(s[t.start..t.end]))
  }

  /** `result[key] = value` */
  function Put(ms: seq<(string, Json)>, key: string, value: Json): seq<(string, Json)> {
    if ms == [] then [(key, value)]
    else if ms[0].0 == key then [(key, value)] + ms[1..]
    else if Less(key, ms[0].0) then [(key, value)] + ms
    else [ms[0]] + Put(ms[1..], key, value)
  }

  /** `parse_internal`, from the token `t`: the value, and the token behind it. */
  function ParseValue(s: string, t: Token): (r: Result<(Json, Token)>)
    requires Readable(s, t)
    ensures r.Ok? ==> Readable(s, r.value.1) && t.end < r.value.1.end
    decreases |s| + 1 - t.end, 1
  {
    match t.kind
    case BeginObject =>
      var u := Next(s, t.end);
      if u.kind.EndObject? then Ok((Object([]), Next(s, u.end)))
      else if u.kind.ValueSeparator? then Error("unexpected separator")
      else ParseMembers(s, u, [])
    case BeginArray =>
      var u := Next(s, t.end);
      if u.kind.EndArray? then Ok((Array([]), Next(s, u.end)))
      else if u.kind.ValueSeparator? then Error("unexpected separator")
      else ParseElements(s, u, [])
    case LiteralNull => Ok((Null, Next(s, t.end)))
    case LiteralTrue => Ok((Boolean(true), Next(s, t.end)))
    case LiteralFalse => Ok((Boolean(false), Next(s, t.end)))
    case ValueString =>
      var v := Unescape(s[t.start + 1..t.end - 1]);
      if v.Error? then Error(v.reason) else Ok((Str(v.value), Next(s, t.end)))
    case ValueNumber =>
      var v := GetNumber(s, t);
      if v.Error? then Error(v.reason) else Ok((v.value, Next(s, t.end)))
    case _ => Error("unexpected token")
  }

  /** The loop over members, at a key. */
  function ParseMembers(s: string, t: Token, ms: seq<(string, Json)>): (r: Result<(Json, Token)>)
    requires Readable(s, t)
    ensures r.Ok? ==> Readable(s, r.value.1) && t.end < r.value.1.end
    decreases |s| + 1 - t.end, 2
  {
    if !t.kind.ValueString? then Error("expected string literal")
    else
      var key := Unescape(s[t.start + 1..t.end - 1]);
      if key.Error? then Error(key.reason)
      else
        var colon := Next(s, t.end);
        if !colon.kind.NameSeparator? then Error("expected ':'")
        else
          var value := ParseValue(s, Next(s, colon.end));
          if value.Error? then value
          else
            var (v, u) := value.value;
            var more := Put(ms, key.value, v);
            if u.kind.ValueSeparator? then ParseMembers(s, Next(s, u.end), more)
            else if u.kind.EndObject? then Ok((Object(more), Next(s, u.end)))
            else Error("expected '}'")
  }

  /** The loop over elements, at a value. */
  function ParseElements(s: string, t: Token, es: seq<Json>): (r: Result<(Json, Token)>)
    requires Readable(s, t)
    ensures r.Ok? ==> Readable(s, r.value.1) && t.end < r.value.1.end
    decreases |s| + 1 - t.end, 2
  {
    var value := ParseValue(s, t);
    if value.Error? then value
    else
      var (v, u) := value.value;
      if u.kind.ValueSeparator? then ParseElements(s, Next(s, u.end), es + [v])
      else if u.kind.EndArray? then Ok((Array(es + [v]), Next(s, u.end)))
      else Error("expected ']'")
  }

  /** `parse` */
  function Parse(s: string): Result<Json> {
    var r := ParseValue(s, Next(s, 0));
    if r.Error? then Error(r.reason)
    else if !r.value.1.kind.EndOfInput? then Error("expected end of input")
    else Ok(r.value.0)
  }
}
