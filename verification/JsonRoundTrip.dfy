/** Printed JSON reads back as the same value, compact or with any indentation. */
module JsonRoundTrip {
  import opened Ascii
  import opened Numerals
  import opened JsonText
  import opened JsonLexer
  import opened JsonValue
  import opened JsonParser

  /** `text` stands in `s` at `i`. */
  predicate Reads(s: string, i: nat, text: string) { i + |text| <= |s| && s[i..i + |text|] == text }

  lemma ReadsParts(s: string, i: nat, a: string, b: string)
    requires Reads(s, i, a + b)
    ensures Reads(s, i, a) && Reads(s, i + |a|, b) && i + |a| + |b| <= |s|
  {
    var t := s[i..i + |a + b|];
    assert t == a + b;
    assert t[..|a|] == a && t[|a|..] == b;
    SliceOfSlice(s, i, i + |a + b|, 0, |a|);
    SliceOfSlice(s, i, i + |a + b|, |a|, |t|);
  }

  lemma ReadsAt(s: string, i: nat, text: string, k: nat)
    requires Reads(s, i, text) && k < |text|
    ensures At(s, i + k) == text[k]
  {
    assert s[i..i + |text|][k] == s[i + k];
  }

  /* ---- white space and punctuation ------------------------------------ */

  lemma {:induction false} SpacesSkip(s: string, i: nat, k: nat)
    requires i <= k <= |s| && forall n :: i <= n < k ==> IsSpace(s[n])
    ensures Next(s, i) == Next(s, k)
    decreases k - i
  {
    if i < k {
      assert Scan(s, i) == Scan(s, i + 1);
      SpacesSkip(s, i + 1, k);
    }
  }

  lemma BlankSkip(s: string, i: nat, blank: string)
    requires Reads(s, i, blank) && forall n :: 0 <= n < |blank| ==> IsSpace(blank[n])
    ensures Next(s, i) == Next(s, i + |blank|)
  {
    forall n | i <= n < i + |blank| ensures IsSpace(s[n]) {
      ReadsAt(s, i, blank, n - i);
      assert IsSpace(blank[n - i]);
    }
    SpacesSkip(s, i, i + |blank|);
  }

  function Punctuation(c: char): TokenType {
    if c == ',' then ValueSeparator else if c == ':' then NameSeparator else if c == '[' then BeginArray
    else if c == ']' then EndArray else if c == '{' then BeginObject else EndObject
  }

  lemma PunctuationReads(s: string, i: nat, c: char)
    requires c in ",:[]{}" && i < |s| && s[i] == c
    ensures Next(s, i) == Token(Punctuation(c), i, i + 1)
  {
    hide StringEnd, NumberEnd, DigitsEnd, Literal;
  }

  /* ---- strings, numbers and literals ----------------------------------- */

  lemma StringReads(s: string, i: nat, k: string)
    requires Reads(s, i, "\"" + Escape(k) + "\"")
    ensures
      var t := Next(s, i);
      && t == Token(ValueString, i, i + |Escape(k)| + 2)
      && Unescape(s[t.start + 1..t.end - 1]) == Ok(k)
  {
    hide Escape, WellEscaped, Unescape, StringEnd, NumberEnd, DigitsEnd, Literal;
    var e := Escape(k);
    ReadsParts(s, i, "\"" + e, "\"");
    ReadsParts(s, i, "\"", e);
    ReadsAt(s, i, "\"", 0);
    ReadsAt(s, i + 1 + |e|, "\"", 0);
    EscapeInverse(k);
    StringEndMeans(s, i + 1, i + 2 + |e|);
    assert s[i + 1..i + 1 + |e|] == e;
  }

  /** What may follow a number. */
  predicate Ends(s: string, i: nat) {
    var c := At(s, i);
    !IsNum(c) && c != '.' && c != 'e' && c != 'E'
  }

  lemma {:induction false} DigitsEndThere(s: string, i: nat, e: nat)
    requires i <= e <= |s| && (forall k :: i <= k < e ==> IsNum(s[k])) && !IsNum(At(s, e))
    ensures DigitsEnd(s, i) == e
    decreases e - i
  {
    if i < e { DigitsEndThere(s, i + 1, e); }
  }

  lemma {:induction false} NoLeadingZero(n: nat)
    ensures ToDecimal(n)[0] == '0' ==> |ToDecimal(n)| == 1
    decreases n
  {
    if n >= 10 {
      NoLeadingZero(n / 10);
      assert ToDecimal(n)[0] == ToDecimal(n / 10)[0];
      if n / 10 < 10 { assert ToDecimal(n / 10) == [DecimalDigit(n / 10)]; }
      else { LongNumeral(n / 10); }
    }
  }

  lemma LongNumeral(n: nat)
    requires n >= 10
    ensures |ToDecimal(n)| > 1
  {
  }

  /** A numeral is one token, and its value is read back. */
  lemma NumeralReads(s: string, i: nat, n: nat)
    requires Reads(s, i, ToDecimal(n)) && Ends(s, i + |ToDecimal(n)|)
    ensures
      var e := i + |ToDecimal(n)|;
      && DigitsEnd(s, i) == e == DigitsEnd(s, i + 1) && Decimal(s[i..e]) == n && NumberEnd(s, e) == e
      && IsNum(At(s, i)) && (At(s, i) == '0' ==> e == i + 1)
  {
    hide ToDecimal;
    var text := ToDecimal(n);
    forall k | i <= k < i + |text| ensures IsNum(s[k]) {
      ReadsAt(s, i, text, k - i);
      assert IsNum(text[k - i]);
    }
    DigitsEndThere(s, i, i + |text|);
    ReadsAt(s, i, text, 0);
    NoLeadingZero(n);
  }

  lemma UnsignedReads(s: string, i: nat, n: nat)
    requires Reads(s, i, ToDecimal(n)) && Ends(s, i + |ToDecimal(n)|) && n <= U64_MAX
    ensures
      var t := Next(s, i);
      t == Token(ValueNumber, i, i + |ToDecimal(n)|) && GetNumber(s, t) == Ok(Unsigned(n))
  {
    hide ToDecimal, Decimal, DigitsEnd, NumberEnd, StringEnd, Literal;
    NumeralReads(s, i, n);
  }

  lemma NegativeReads(s: string, i: nat, n: nat)
    requires Reads(s, i, "-" + ToDecimal(n)) && Ends(s, i + 1 + |ToDecimal(n)|) && n <= I64_MAX + 1
    ensures
      var t := Next(s, i);
      t == Token(ValueNumber, i, i + 1 + |ToDecimal(n)|) && GetNumber(s, t) == Ok(Integer(-(n as int)))
  {
    hide ToDecimal, Decimal, DigitsEnd, NumberEnd, StringEnd, Literal;
    ReadsParts(s, i, "-", ToDecimal(n));
    ReadsAt(s, i, "-", 0);
    NumeralReads(s, i + 1, n);
  }

  lemma LiteralReads(s: string, i: nat, word: string)
    requires (word == "null" || word == "true" || word == "false") && Reads(s, i, word)
    ensures Next(s, i)
      == Token(if word == "null" then LiteralNull else if word == "true" then LiteralTrue else LiteralFalse,
               i, i + |word|)
  {
    hide StringEnd, NumberEnd, DigitsEnd;
    ReadsAt(s, i, word, 0);
  }

  /* ---- objects --------------------------------------------------------- */

  lemma LessIrreflexive(a: string)
    ensures !Less(a, a)
    decreases |a|
  {
    if a != "" { LessIrreflexive(a[1..]); }
  }

  lemma LessAsymmetric(a: string, b: string)
    requires Less(a, b)
    ensures !Less(b, a)
    decreases |a|
  {
    if a != "" && b != "" && a[0] == b[0] { LessAsymmetric(a[1..], b[1..]); }
  }

  /** Members that arrive in order are stored in order. */
  lemma {:induction false} PutLast(ms: seq<(string, Json)>, key: string, value: Json)
    requires forall i :: 0 <= i < |ms| ==> Less(ms[i].0, key)
    ensures Put(ms, key, value) == ms + [(key, value)]
    decreases |ms|
  {
    if ms != [] {
      assert Less(ms[0].0, key);
      LessIrreflexive(key);
      LessAsymmetric(ms[0].0, key);
      PutLast(ms[1..], key, value);
      assert [ms[0]] + (ms[1..] + [(key, value)]) == ms + [(key, value)];
    }
  }

  /* ---- values ---------------------------------------------------------- */

  /** The value that is read back: non-negative numbers are read as unsigned. */
  function Reread(j: Json): Json {
    match j
    case Integer(n) => if n >= 0 then Unsigned(n) else j
    case Array(es) => Array(seq(|es|, i requires 0 <= i < |es| => Reread(es[i])))
    case Object(ms) => Object(seq(|ms|, i requires 0 <= i < |ms| => (ms[i].0, Reread(ms[i].1))))
    case _ => j
  }

  /** It is the same value for `operator==`. */
  lemma {:induction false} RereadEqual(j: Json)
    requires Exact(j)
    ensures Equal(Reread(j), j) && Equal(j, Reread(j))
    decreases j
  {
    match j
    case Array(es) =>
      forall i | 0 <= i < |es| ensures Equal(Reread(es[i]), es[i]) && Equal(es[i], Reread(es[i])) {
        RereadEqual(es[i]);
      }
    case Object(ms) =>
      forall i | 0 <= i < |ms| ensures Equal(Reread(ms[i].1), ms[i].1) && Equal(ms[i].1, Reread(ms[i].1)) {
        RereadEqual(ms[i].1);
      }
    case _ =>
  }

  /** After a value, before more text. */
  lemma EndsBefore(s: string, i: nat, pretty: bool, indent: nat, c: char)
    requires Reads(s, i, Break(pretty) + Spaces(indent) + [c]) && (c == ']' || c == '}')
    ensures Ends(s, i)
  {
    var text := Break(pretty) + Spaces(indent) + [c];
    ReadsAt(s, i, text, 0);
    if !pretty && indent == 0 { assert text == [c]; }
    else if !pretty { assert text[0] == Spaces(indent)[0]; }
  }

  /** White space, then the end of an array or object. */
  lemma CloseReads(s: string, i: nat, pretty: bool, indent: nat, c: char)
    requires Reads(s, i, Break(pretty) + Spaces(indent) + [c]) && (c == ']' || c == '}')
    ensures
      var e := i + |Break(pretty) + Spaces(indent) + [c]|;
      Next(s, i) == Token(Punctuation(c), e - 1, e)
  {
    var blank := Break(pretty) + Spaces(indent);
    ReadsParts(s, i, blank, [c]);
    ReadsAt(s, i + |blank|, [c], 0);
    BlankSkip(s, i, blank);
    PunctuationReads(s, i + |blank|, c);
  }

  /** The text of a value reads back as that value, wherever it stands. */
  lemma {:induction false} ValueReads(s: string, i: nat, j: Json, pretty: bool, step: nat, indent: nat)
    requires Exact(j) && Reads(s, i, Dump(j, pretty, step, indent)) && Ends(s, i + |Dump(j, pretty, step, indent)|)
    ensures ParseValue(s, Next(s, i)) == Ok((Reread(j), Next(s, i + |Dump(j, pretty, step, indent)|)))
    decreases j, if j.Array? then |j.elements| + 1 else if j.Object? then |j.members| + 1 else 0
  {
    hide *;
    if j.Array? { ArrayReads(s, i, j, pretty, step, indent); }
    else if j.Object? { ObjectReads(s, i, j, pretty, step, indent); }
    else { ScalarReads(s, i, j, pretty, step, indent); }
  }

  lemma ScalarReads(s: string, i: nat, j: Json, pretty: bool, step: nat, indent: nat)
    requires Exact(j) && Reads(s, i, Dump(j, pretty, step, indent)) && Ends(s, i + |Dump(j, pretty, step, indent)|)
    requires !j.Array? && !j.Object?
    ensures ParseValue(s, Next(s, i)) == Ok((Reread(j), Next(s, i + |Dump(j, pretty, step, indent)|)))
  {
    hide Scan, Escape, ToDecimal, Next, DumpElements, DumpMembers, Reads, Ends;
    match j
    case Null => LiteralReads(s, i, "null");
    case Boolean(b) => LiteralReads(s, i, if b then "true" else "false");
    case Str(k) => StringReads(s, i, k);
    case Integer(n) => if n < 0 { NegativeReads(s, i, -n); } else { UnsignedReads(s, i, n); }
    case Unsigned(u) => UnsignedReads(s, i, u);
  }

  lemma {:induction false} ArrayReads(s: string, i: nat, j: Json, pretty: bool, step: nat, indent: nat)
    requires Exact(j) && j.Array? && Reads(s, i, Dump(j, pretty, step, indent))
    ensures ParseValue(s, Next(s, i)) == Ok((Reread(j), Next(s, i + |Dump(j, pretty, step, indent)|)))
    decreases j, |j.elements| + 1, 0
  {
    hide Scan, Next, DumpElements, Dump, Reread, Spaces, Reads, ParseElements;
    var es := j.elements;
    if es == [] {
      EmptyReads(s, i, j, pretty, step, indent);
    } else {
      var deep := Deeper(pretty, step, indent);
      var text, close := DumpElements(j, 0, pretty, step, deep), Break(pretty) + Spaces(indent) + "]";
      DumpArray(j, pretty, step, indent);
      ReadsParts(s, i, "[" + Break(pretty) + text, close);
      ReadsParts(s, i, "[" + Break(pretty), text);
      ReadsParts(s, i, "[", Break(pretty));
      ReadsAt(s, i, "[", 0);
      PunctuationReads(s, i, '[');
      BlankSkip(s, i + 1, Break(pretty));
      var at := i + 1 + |Break(pretty)|;
      ElementsRead(s, at, j, 0, [], pretty, step, deep, indent);
      RereadArray(j);
      assert at + |text| + |close| == i + |Dump(j, pretty, step, indent)|;
    }
  }

  lemma DumpArray(j: Json, pretty: bool, step: nat, indent: nat)
    requires j.Array? && j.elements != []
    ensures Dump(j, pretty, step, indent)
      == "[" + Break(pretty) + DumpElements(j, 0, pretty, step, Deeper(pretty, step, indent))
         + (Break(pretty) + Spaces(indent) + "]")
  {
  }

  lemma DumpObject(j: Json, pretty: bool, step: nat, indent: nat)
    requires j.Object? && j.members != []
    ensures Dump(j, pretty, step, indent)
      == "{" + Break(pretty) + DumpMembers(j, 0, pretty, step, Deeper(pretty, step, indent))
         + (Break(pretty) + Spaces(indent) + "}")
  {
  }

  lemma EmptyReads(s: string, i: nat, j: Json, pretty: bool, step: nat, indent: nat)
    requires j == Array([]) || j == Object([])
    requires Reads(s, i, Dump(j, pretty, step, indent))
    ensures ParseValue(s, Next(s, i)) == Ok((Reread(j), Next(s, i + |Dump(j, pretty, step, indent)|)))
  {
    hide Scan, Next;
    var text := Dump(j, pretty, step, indent);
    ReadsAt(s, i, text, 0);
    ReadsAt(s, i, text, 1);
    PunctuationReads(s, i, text[0]);
    PunctuationReads(s, i + 1, text[1]);
    if j.Array? { assert Reread(j).elements == []; } else { assert Reread(j).members == []; }
  }

  lemma RereadArray(j: Json)
    requires j.Array?
    ensures Reread(j) == Array([] + RereadFrom(j.elements, 0))
  {
    assert Reread(j).elements == [] + RereadFrom(j.elements, 0);
  }

  lemma RereadObject(j: Json)
    requires j.Object?
    ensures Reread(j) == Object(RereadMembers(j.members, |j.members|))
  {
  }

  /** The elements of `j` from `k` on. */
  function RereadFrom(es: seq<Json>, k: nat): seq<Json>
    requires k <= |es|
  {
    seq(|es| - k, n requires 0 <= n < |es| - k => Reread(es[k + n]))
  }

  /** The loop over the elements, which do not start with a separator or an end. */
  lemma {:induction false} ElementsRead(
      s: string, i: nat, j: Json, k: nat, acc: seq<Json>, pretty: bool, step: nat, deep: nat, indent: nat)
    requires Exact(j) && j.Array? && k < |j.elements|
    requires Reads(s, i, DumpElements(j, k, pretty, step, deep))
    requires Reads(s, i + |DumpElements(j, k, pretty, step, deep)|, Break(pretty) + Spaces(indent) + "]")
    ensures !Next(s, i).kind.EndArray? && !Next(s, i).kind.ValueSeparator?
    ensures ParseElements(s, Next(s, i), acc) == Ok((Array(acc + RereadFrom(j.elements, k)),
      Next(s, i + |DumpElements(j, k, pretty, step, deep)| + |Break(pretty) + Spaces(indent) + "]"|)))
    decreases j, |j.elements| - k
  {
    hide Scan, Next, Dump, Reread, Exact, Ends, Reads, Spaces, Break, DumpElements, ParseValue;
    var es := j.elements;
    var text, rest, close := Dump(es[k], pretty, step, deep), SeparatedElements(j, k, pretty, step, deep),
      Break(pretty) + Spaces(indent) + "]";
    ElementText(j, k, pretty, step, deep);
    ReadsParts(s, i, Spaces(deep) + text, rest);
    ReadsParts(s, i, Spaces(deep), text);
    BlankSkip(s, i, Spaces(deep));
    var at := i + deep + |text|;
    ElementsExact(j, k);
    ValueStarts(s, Next(s, i));
    if k + 1 < |es| {
      SeparatorReads(s, at, pretty, DumpElements(j, k + 1, pretty, step, deep));
      ValueReads(s, i + deep, es[k], pretty, step, deep);
      ElementsRead(s, at + 1 + |Break(pretty)|, j, k + 1, acc + [Reread(es[k])], pretty, step, deep, indent);
      assert acc + [Reread(es[k])] + RereadFrom(es, k + 1) == acc + RereadFrom(es, k);
    } else {
      EndsBefore(s, at, pretty, indent, ']');
      ValueReads(s, i + deep, es[k], pretty, step, deep);
      CloseReads(s, at, pretty, indent, ']');
      assert acc + [Reread(es[k])] == acc + RereadFrom(es, k);
    }
  }

  /** No value starts with a separator or an end. */
  lemma ValueStarts(s: string, t: Token)
    requires Readable(s, t)
    ensures ParseValue(s, t).Ok? ==> !t.kind.EndArray? && !t.kind.ValueSeparator?
  {
    hide Next, Readable;
  }

  function SeparatedElements(j: Json, k: nat, pretty: bool, step: nat, indent: nat): string
    requires j.Array? && k < |j.elements|
  {
    if k + 1 < |j.elements| then "," + Break(pretty) + DumpElements(j, k + 1, pretty, step, indent) else ""
  }

  lemma ElementText(j: Json, k: nat, pretty: bool, step: nat, indent: nat)
    requires j.Array? && k < |j.elements|
    ensures DumpElements(j, k, pretty, step, indent)
      == Spaces(indent) + Dump(j.elements[k], pretty, step, indent) + SeparatedElements(j, k, pretty, step, indent)
    ensures |Spaces(indent)| == indent && forall n :: 0 <= n < indent ==> IsSpace(Spaces(indent)[n])
  {
  }

  lemma ElementsExact(j: Json, k: nat)
    requires Exact(j) && j.Array? && k < |j.elements|
    ensures Exact(j.elements[k])
  {
  }

  /** A separator and what follows it. */
  lemma SeparatorReads(s: string, i: nat, pretty: bool, rest: string)
    requires Reads(s, i, "," + Break(pretty) + rest)
    ensures Ends(s, i) && Next(s, i) == Token(ValueSeparator, i, i + 1)
    ensures Next(s, i + 1) == Next(s, i + 1 + |Break(pretty)|) && Reads(s, i + 1 + |Break(pretty)|, rest)
  {
    hide Scan, Next;
    ReadsParts(s, i, "," + Break(pretty), rest);
    ReadsParts(s, i, ",", Break(pretty));
    ReadsAt(s, i, ",", 0);
    PunctuationReads(s, i, ',');
    BlankSkip(s, i + 1, Break(pretty));
  }

  lemma {:induction false} ObjectReads(s: string, i: nat, j: Json, pretty: bool, step: nat, indent: nat)
    requires Exact(j) && j.Object? && Reads(s, i, Dump(j, pretty, step, indent))
    ensures ParseValue(s, Next(s, i)) == Ok((Reread(j), Next(s, i + |Dump(j, pretty, step, indent)|)))
    decreases j, |j.members| + 1, 0
  {
    hide Scan, Next, DumpMembers, Dump, Reread, Spaces, Reads, ParseMembers;
    var ms := j.members;
    if ms == [] {
      EmptyReads(s, i, j, pretty, step, indent);
    } else {
      var deep := Deeper(pretty, step, indent);
      var text, close := DumpMembers(j, 0, pretty, step, deep), Break(pretty) + Spaces(indent) + "}";
      DumpObject(j, pretty, step, indent);
      ReadsParts(s, i, "{" + Break(pretty) + text, close);
      ReadsParts(s, i, "{" + Break(pretty), text);
      ReadsParts(s, i, "{", Break(pretty));
      ReadsAt(s, i, "{", 0);
      PunctuationReads(s, i, '{');
      BlankSkip(s, i + 1, Break(pretty));
      var at := i + 1 + |Break(pretty)|;
      MembersRead(s, at, j, 0, pretty, step, deep, indent);
      RereadObject(j);
      assert RereadMembers(ms, 0) == [];
      assert at + |text| + |close| == i + |Dump(j, pretty, step, indent)|;
    }
  }

  function RereadMembers(ms: seq<(string, Json)>, k: nat): seq<(string, Json)>
    requires k <= |ms|
  {
    seq(k, n requires 0 <= n < k => (ms[n].0, Reread(ms[n].1)))
  }

  /** The loop over the members, `k` of which have been stored. */
  lemma {:induction false} MembersRead(
      s: string, i: nat, j: Json, k: nat, pretty: bool, step: nat, deep: nat, indent: nat)
    requires Exact(j) && j.Object? && k < |j.members|
    requires Reads(s, i, DumpMembers(j, k, pretty, step, deep))
    requires Reads(s, i + |DumpMembers(j, k, pretty, step, deep)|, Break(pretty) + Spaces(indent) + "}")
    ensures !Next(s, i).kind.EndObject? && !Next(s, i).kind.ValueSeparator?
    ensures ParseMembers(s, Next(s, i), RereadMembers(j.members, k))
      == Ok((Object(RereadMembers(j.members, |j.members|)),
      Next(s, i + |DumpMembers(j, k, pretty, step, deep)| + |Break(pretty) + Spaces(indent) + "}"|)))
    decreases j, |j.members| - k
  {
    hide Scan, Next, Dump, Reread, Exact, Ends, MemberText, Less, Put, Unescape, WellEscaped, Reads, Spaces, Break,
      DumpMembers, ParseValue;
    var ms := j.members;
    var (key, value) := ms[k];
    var colon := MemberText(key, pretty);
    var text, rest := Dump(value, pretty, step, deep), SeparatedMembers(j, k, pretty, step, deep);
    MemberDumped(j, k, pretty, step, deep);
    ReadsParts(s, i, Spaces(deep) + colon + text, rest);
    ReadsParts(s, i, Spaces(deep) + colon, text);
    ReadsParts(s, i, Spaces(deep), colon);
    BlankSkip(s, i, Spaces(deep));
    LabelReads(s, i + deep, key, pretty);
    var from := i + deep + |colon|;
    var at := from + |text|;
    MembersExact(j, k);
    PutLast(RereadMembers(ms, k), key, Reread(value));
    assert RereadMembers(ms, k) + [(key, Reread(value))] == RereadMembers(ms, k + 1);
    if k + 1 < |ms| {
      SeparatorReads(s, at, pretty, DumpMembers(j, k + 1, pretty, step, deep));
      ValueReads(s, from, value, pretty, step, deep);
      MembersRead(s, at + 1 + |Break(pretty)|, j, k + 1, pretty, step, deep, indent);
    } else {
      EndsBefore(s, at, pretty, indent, '}');
      ValueReads(s, from, value, pretty, step, deep);
      CloseReads(s, at, pretty, indent, '}');
    }
  }

  function SeparatedMembers(j: Json, k: nat, pretty: bool, step: nat, indent: nat): string
    requires j.Object? && k < |j.members|
  {
    if k + 1 < |j.members| then "," + Break(pretty) + DumpMembers(j, k + 1, pretty, step, indent) else ""
  }

  lemma MemberDumped(j: Json, k: nat, pretty: bool, step: nat, indent: nat)
    requires j.Object? && k < |j.members|
    ensures DumpMembers(j, k, pretty, step, indent)
      == Spaces(indent) + MemberText(j.members[k].0, pretty) + Dump(j.members[k].1, pretty, step, indent)
         + SeparatedMembers(j, k, pretty, step, indent)
    ensures |Spaces(indent)| == indent && forall n :: 0 <= n < indent ==> IsSpace(Spaces(indent)[n])
  {
  }

  lemma MembersExact(j: Json, k: nat)
    requires Exact(j) && j.Object? && k < |j.members|
    ensures Exact(j.members[k].1) && forall n :: 0 <= n < k ==> Less(j.members[n].0, j.members[k].0)
  {
  }

  /** A key and its colon. */
  lemma LabelReads(s: string, i: nat, key: string, pretty: bool)
    requires Reads(s, i, MemberText(key, pretty))
    ensures
      var t := Next(s, i);
      && t.kind.ValueString? && Unescape(s[t.start + 1..t.end - 1]) == Ok(key)
      && Next(s, t.end).kind.NameSeparator?
      && Next(s, Next(s, t.end).end) == Next(s, i + |MemberText(key, pretty)|)
  {
    hide Scan, Next, Escape, Unescape, WellEscaped;
    var quoted, gap := "\"" + Escape(key) + "\"", if pretty then " " else "";
    assert MemberText(key, pretty) == quoted + (":" + gap);
    ReadsParts(s, i, quoted, ":" + gap);
    ReadsParts(s, i + |quoted|, ":", gap);
    StringReads(s, i, key);
    ReadsAt(s, i + |quoted|, ":", 0);
    PunctuationReads(s, i + |quoted|, ':');
    BlankSkip(s, i + |quoted| + 1, gap);
  }

  /**
   The round trip: every value without floats, printed compactly or at any
   indentation, parses to a value that compares equal to it.
   */
  lemma RoundTrip(j: Json, pretty: bool, step: nat)
    requires Exact(j)
    ensures Parse(Dump(j, pretty, step, 0)) == Ok(Reread(j)) && Equal(Reread(j), j)
  {
    hide Dump, Exact, Reread, ParseValue;
    var s := Dump(j, pretty, step, 0);
    assert s[0..0 + |s|] == s;
    ValueReads(s, 0, j, pretty, step, 0);
    RereadEqual(j);
    hide Equal;
  }
}
