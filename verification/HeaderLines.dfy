/**
 How the parser reads one header line, and a whole block of them.
 */
module HeaderLines {
  import opened Ascii
  import opened Numerals
  import opened ParserTypes
  import opened ParserStep
  import opened ParserMachine
  import opened ParserRuns
  import opened ParserInvariant
  import opened Fragmentation
  import opened FieldNames
  import opened FieldValues
  import opened ParserWords

  /** A value without the white space in front of it. */
  function Trimmed(v: string): string
    decreases |v|
  {
    if v != "" && (v[0] == SP || v[0] == HT) then Trimmed(v[1..]) else v
  }

  predicate IsPadding(s: string) { forall i :: 0 <= i < |s| ==> s[i] == SP || s[i] == HT }

  lemma {:induction false} PaddingTrimmed(v: string) returns (padding: string)
    ensures IsPadding(padding) && padding + Trimmed(v) == v
    decreases |v|
  {
    padding := "";
    if v != "" && (v[0] == SP || v[0] == HT) {
      var rest := PaddingTrimmed(v[1..]);
      padding := [v[0]] + rest;
      assert padding + Trimmed(v) == [v[0]] + (rest + Trimmed(v[1..]));
    }
  }

  /** A value comes back as it was if and only if there is no white space in front of it. */
  lemma TrimmedExactly(v: string)
    ensures Trimmed(v) == v <==> v == "" || (v[0] != SP && v[0] != HT)
  {
    if v != "" && (v[0] == SP || v[0] == HT) {
      var padding := PaddingTrimmed(v[1..]);
      assert |padding| + |Trimmed(v)| == |v| - 1;
    }
  }

  /** A value as it is read: header characters on one line, no white space in front. */
  predicate CleanValue(v: string) {
    && (forall i :: 0 <= i < |v| ==> IsHeaderChar(v[i]) && v[i] != CR && v[i] != LF)
    && (v != "" ==> v[0] != SP && v[0] != HT)
  }

  predicate CleanKey(k: string) { k != "" && IsTokens(k) }

  /** What a header line does to the matcher. */
  function LineMatcher(m: Matcher, k: string, v: string): Matched
    requires CleanKey(k)
  {
    var n := Name(m, k);
    if !n.errno.Ok? then n
    else if v == "" then Now(TokenFlags(n.m))
    else
      var r := ValueOf(n.m, v);
      if r.errno.Ok? then Now(TokenFlags(r.m)) else r
  }

  lemma {:induction false} NameOver(m: Machine, s: string) returns (w: Machine)
    requires m.core.errno.Ok? && m.core.state.HeaderField? && EndsIn(m.trace, Field) && IsTokens(s)
    requires NameRun(m.core.m, s).errno.Ok?
    ensures Over(m, s, w) && EndsIn(w.trace, Field)
    ensures Is(w, m.core.(m := NameRun(m.core.m, s).m), Emit(m.trace, Data(Field, s)))
    decreases |s|
  {
    hide Transition, Step, FieldByte, Over;
    if s == "" {
      w := m;
      OverNothing(m);
      EmitNothing(m.trace, Field);
    } else {
      FieldOctet(m, s[0]);
      var x := Step(m, s[0]);
      OverOctet(m, s[0]);
      EmitEnds(m.trace, Field, [s[0]]);
      w := NameOver(x, s[1..]);
      OverTrans(m, [s[0]], x, s[1..], w);
      EmitExtend(m.trace, Field, [s[0]], s[1..]);
      assert s == [s[0]] + s[1..];
    }
  }

  lemma {:induction false} ValueOver(m: Machine, s: string) returns (w: Machine)
    requires m.core.errno.Ok? && m.core.state.HeaderValue? && EndsIn(m.trace, Value)
    requires forall i :: 0 <= i < |s| ==> IsHeaderChar(s[i]) && s[i] != CR && s[i] != LF
    requires ValueRun(m.core.m, s).errno.Ok?
    ensures Over(m, s, w) && EndsIn(w.trace, Value)
    ensures Is(w, m.core.(m := ValueRun(m.core.m, s).m), Emit(m.trace, Data(Value, s)))
    decreases |s|
  {
    hide Transition, Step, ValueByte, Over, IsHeaderChar;
    if s == "" {
      w := m;
      OverNothing(m);
      EmitNothing(m.trace, Value);
    } else {
      ValueOctet(m, s[0]);
      var x := Step(m, s[0]);
      OverOctet(m, s[0]);
      EmitEnds(m.trace, Value, [s[0]]);
      w := ValueOver(x, s[1..]);
      OverTrans(m, [s[0]], x, s[1..], w);
      EmitExtend(m.trace, Value, [s[0]], s[1..]);
      assert s == [s[0]] + s[1..];
    }
  }

  /** The name and the colon. */
  lemma ColonOver(m: Machine, k: string) returns (w: Machine)
    requires m.core.errno.Ok? && m.core.state.HeaderFieldStart? && CleanKey(k) && Name(m.core.m, k).errno.Ok?
    ensures Over(m, k + ":", w)
    ensures Is(w, m.core.(state := HeaderValueDiscardWs, m := Name(m.core.m, k).m), Emit(m.trace, Data(Field, k)))
  {
    hide Transition, Step, NameRun, NameStart, Over, IsToken, Emit;
    NameFirst(m, k[0]);
    OverOctet(m, k[0]);
    var a := Step(m, k[0]);
    EmitEnds(m.trace, Field, [k[0]]);
    var b := NameOver(a, k[1..]);
    OverTrans(m, [k[0]], a, k[1..], b);
    EmitExtend(m.trace, Field, [k[0]], k[1..]);
    assert k == [k[0]] + k[1..];
    Colon(b);
    OverThen(m, k, b, ':');
    assert k == [k[0]] + k[1..] && NameRun(NameStart(m.core.m, k[0]), k[1..]) == Name(m.core.m, k);
    w := Step(b, ':');
  }

  /** The name, the colon and the space. */
  lemma KeyOver(m: Machine, k: string) returns (w: Machine)
    requires m.core.errno.Ok? && m.core.state.HeaderFieldStart? && CleanKey(k) && Name(m.core.m, k).errno.Ok?
    ensures Over(m, k + ": ", w)
    ensures Is(w, m.core.(state := HeaderValueDiscardWs, m := Name(m.core.m, k).m), Emit(m.trace, Data(Field, k)))
  {
    hide Transition, Step, Name, Over, CleanKey, Emit;
    var c := ColonOver(m, k);
    Space(c, SP);
    OverThen(m, k + ":", c, SP);
    w := Step(c, SP);
    assert k + ":" + [SP] == k + ": ";
  }

  /** White space in front of a value is passed over. */
  lemma {:induction false} PaddingOver(m: Machine, s: string) returns (w: Machine)
    requires m.core.errno.Ok? && m.core.state.HeaderValueDiscardWs? && IsPadding(s)
    ensures Over(m, s, w) && Is(w, m.core, m.trace)
    decreases |s|
  {
    hide Transition, Step, Over;
    if s == "" {
      w := m;
      OverNothing(m);
    } else {
      Space(m, s[0]);
      OverOctet(m, s[0]);
      var x := Step(m, s[0]);
      w := PaddingOver(x, s[1..]);
      OverTrans(m, [s[0]], x, s[1..], w);
      assert s == [s[0]] + s[1..];
    }
  }

  lemma ValueWhole(m: Machine, v: string) returns (w: Machine)
    requires m.core.errno.Ok? && m.core.state.HeaderValueDiscardWs? && CleanValue(v) && v != ""
    requires ValueOf(m.core.m, v).errno.Ok?
    ensures Over(m, v, w) && EndsIn(w.trace, Value)
    ensures Is(w, m.core.(state := HeaderValue, m := ValueOf(m.core.m, v).m), Emit(m.trace, Data(Value, v)))
  {
    hide Transition, Step, ValueRun, Over, IsHeaderChar, FirstValueByte, Emit;
    ValueFirst(m, v[0]);
    OverOctet(m, v[0]);
    var a := Step(m, v[0]);
    EmitEnds(m.trace, Value, [v[0]]);
    w := ValueOver(a, v[1..]);
    OverTrans(m, [v[0]], a, v[1..], w);
    EmitExtend(m.trace, Value, [v[0]], v[1..]);
    assert v == [v[0]] + v[1..];
  }

  /** A value and the line end. */
  lemma ValueLineOver(m: Machine, v: string) returns (w: Machine)
    requires m.core.errno.Ok? && m.core.state.HeaderValueDiscardWs? && CleanValue(v) && v != ""
    requires ValueOf(m.core.m, v).errno.Ok?
    ensures Over(m, v + CRLF, w)
    ensures Is(w, m.core.(state := HeaderValueLws, m := ValueOf(m.core.m, v).m), Emit(m.trace, Data(Value, v)))
  {
    assert IsHeaderChar(CR);
    hide Transition, Step, ValueOf, Over, IsHeaderChar, CleanValue, Emit;
    var b := ValueWhole(m, v);
    ValueEnd(b);
    OverThen(m, v, b, CR);
    var c := Step(b, CR);
    LineFeed(c);
    OverThen(m, v + [CR], c, LF);
    w := Step(c, LF);
    assert (v + [CR]) + [LF] == v + CRLF;
  }

  lemma EmptyLineOver(m: Machine) returns (w: Machine)
    requires m.core.errno.Ok? && m.core.state.HeaderValueDiscardWs?
    ensures Over(m, CRLF, w)
    ensures Is(w, m.core.(state := HeaderValueDiscardLws), m.trace)
  {
    hide Transition, Step, Over;
    EmptyEnd(m);
    OverOctet(m, CR);
    LineFeed(Step(m, CR));
    OverThen(m, [CR], Step(m, CR), LF);
    w := Step(Step(m, CR), LF);
    assert [CR] + [LF] == CRLF;
  }

  /* ---- between lines -------------------------------------------------- */

  predicate BetweenLines(s: State) { s.HeaderFieldStart? || s.HeaderValueLws? || s.HeaderValueDiscardLws? }

  /** A finished line whose effects the parser only applies at the next octet. */
  function Settle(m: Machine): Machine {
    if m.core.state.HeaderFieldStart? then m
    else
      m.(core := m.core.(m := TokenFlags(m.core.m), state := HeaderFieldStart), jumped := false,
         trace := if m.core.state.HeaderValueDiscardLws? then Emit(m.trace, Data(Value, "")) else m.trace)
  }

  lemma SettledOut(c: Core, ch: char)
    requires ch != SP && ch != HT
    ensures
      var o := OnHeaderFieldStart(c.(m := TokenFlags(c.m), state := HeaderFieldStart), ch);
      && OnHeaderValueLws(c, ch) == o && OnHeaderValueDiscardLws(c, ch) == Then([Set(Value), Flush(Value)], o)
  {
    hide OnHeaderFieldStart, TokenFlags;
  }

  /** An empty value is reported by a callback for no octets. */
  lemma SettledCallback(tr: seq<Event>, acts: seq<Act>)
    ensures
      Interpret(tr, [Set(Value), Flush(Value)] + acts, None) == Interpret(Emit(tr, Data(Value, "")), acts, None)
  {
    hide Emit;
    var all := [Set(Value), Flush(Value)] + acts;
    assert all[1..] == [Flush(Value)] + acts && all[1..][1..] == acts;
    assert Interpret(tr, all, None) == Interpret(tr, all[1..], Some(Value));
  }

  lemma SettledStep(m: Machine, ch: char)
    requires BetweenLines(m.core.state) && ch != SP && ch != HT
    ensures Step(m, ch) == Step(Settle(m), ch)
  {
    hide Transition, OnHeaderFieldStart, OnHeaderValueLws, OnHeaderValueDiscardLws, Interpret, Emit, TokenFlags;
    FieldTurn(Settle(m).core, false, ch);
    if m.core.state.HeaderFieldStart? {
    } else {
      LineEndTurn(m.core, m.jumped, ch);
      SettledOut(m.core, ch);
      if m.core.state.HeaderValueDiscardLws? {
        SettledCallback(m.trace, OnHeaderFieldStart(Settle(m).core, ch).acts);
      }
    }
  }

  lemma SettledRun(m: Machine, s: string)
    requires BetweenLines(m.core.state) && m.core.errno.Ok? && s != "" && s[0] != SP && s[0] != HT
    ensures Run(m, s) == Run(Settle(m), s) && NeverSkips(m, s) == NeverSkips(Settle(m), s)
  {
    hide Transition, Step;
    SettledStep(m, s[0]);
  }

  /** One header line, read from the start of a line to the start of the next. */
  lemma LineOver(m: Machine, k: string, v: string) returns (w: Machine)
    requires m.core.errno.Ok? && m.core.state.HeaderFieldStart? && !EndsIn(m.trace, Field)
    requires CleanKey(k) && CleanValue(Trimmed(v)) && LineMatcher(m.core.m, k, Trimmed(v)).errno.Ok?
    ensures Over(m, k + ": " + v + CRLF, w) && BetweenLines(w.core.state)
    ensures
      Is(Settle(w), m.core.(m := LineMatcher(m.core.m, k, Trimmed(v)).m),
         m.trace + [Data(Field, k), Data(Value, Trimmed(v))])
  {
    hide Transition, Step, Over, Name, ValueOf, CleanKey, CleanValue, TokenFlags, Trimmed, IsPadding;
    var t := Trimmed(v);
    var padding := PaddingTrimmed(v);
    var a := KeyOver(m, k);
    assert a.trace == m.trace + [Data(Field, k)];
    var b := PaddingOver(a, padding);
    if t == "" {
      w := EmptyLineOver(b);
      assert t + CRLF == CRLF;
    } else {
      w := ValueLineOver(b, t);
    }
    OverTrans(a, padding, b, t + CRLF, w);
    OverTrans(m, k + ": ", a, padding + (t + CRLF), w);
    assert k + ": " + v + CRLF == (k + ": ") + (padding + (t + CRLF));
    assert m.trace + [Data(Field, k)] + [Data(Value, t)] == m.trace + [Data(Field, k), Data(Value, t)];
  }

  /* ---- a block of lines ----------------------------------------------- */

  type Pairs = seq<(string, string)>

  predicate CleanPairs(ps: Pairs) { forall i :: 0 <= i < |ps| ==> CleanKey(ps[i].0) && CleanValue(ps[i].1) }

  /** The pairs as they are read, without the white space in front of the values. */
  function AsRead(ps: Pairs): Pairs {
    if ps == [] then [] else [(ps[0].0, Trimmed(ps[0].1))] + AsRead(ps[1..])
  }

  lemma {:induction false} ReadAt(ps: Pairs, i: nat)
    requires i < |ps|
    ensures |AsRead(ps)| == |ps| && AsRead(ps)[i].0 == ps[i].0
    decreases i
  {
    if i > 0 { ReadAt(ps[1..], i - 1); } else { ReadLength(ps); }
  }

  lemma {:induction false} ReadLength(ps: Pairs)
    ensures |AsRead(ps)| == |ps|
    decreases |ps|
  {
    if ps != [] { ReadLength(ps[1..]); }
  }

  lemma ReadRest(ps: Pairs)
    requires ps != []
    ensures AsRead(ps)[0] == (ps[0].0, Trimmed(ps[0].1)) && AsRead(ps)[1..] == AsRead(ps[1..])
  {
  }

  /** The text of the lines, each with its line end. */
  function Lines(ps: Pairs): string {
    if ps == [] then "" else ps[0].0 + ": " + ps[0].1 + CRLF + Lines(ps[1..])
  }

  /** The callbacks that report the lines. */
  function LineEvents(ps: Pairs): seq<Event> {
    if ps == [] then [] else [Data(Field, ps[0].0), Data(Value, ps[0].1)] + LineEvents(ps[1..])
  }

  function BlockMatcher(m: Matcher, ps: Pairs): Matched
    requires CleanPairs(ps)
    decreases |ps|
  {
    if ps == [] then Now(m)
    else
      var r := LineMatcher(m, ps[0].0, ps[0].1);
      if r.errno.Ok? then BlockMatcher(r.m, ps[1..]) else r
  }

  lemma LinesStart(ps: Pairs)
    requires CleanPairs(AsRead(ps)) && ps != []
    ensures ps[0].0 != "" && Lines(ps) != "" && Lines(ps)[0] != SP && Lines(ps)[0] != HT && Lines(ps)[0] == ps[0].0[0]
  {
    hide Trimmed, CleanValue;
    ReadRest(ps);
    assert CleanKey(AsRead(ps)[0].0);
    assert IsToken(ps[0].0[0]);
  }

  /**
   A block of header lines, however many, is reported as exactly its pairs in
   order, each name once and each value whole, but for the white space in front of it.
   */
  lemma {:induction false} BlockOver(m: Machine, ps: Pairs) returns (w: Machine)
    requires m.core.errno.Ok? && m.core.state.HeaderFieldStart? && !EndsIn(m.trace, Field)
    requires CleanPairs(AsRead(ps)) && BlockMatcher(m.core.m, AsRead(ps)).errno.Ok?
    ensures Over(m, Lines(ps), w) && BetweenLines(w.core.state)
    ensures Is(Settle(w), m.core.(m := BlockMatcher(m.core.m, AsRead(ps)).m), m.trace + LineEvents(AsRead(ps)))
    decreases |ps|
  {
    hide Transition, Step, Over, LineMatcher, CleanKey, CleanValue, TokenFlags, Emit, Run, EndsIn, Trimmed;
    if ps == [] {
      w := m;
      OverNothing(m);
      assert m.trace + [] == m.trace;
    } else {
      ReadRest(ps);
      var t, rest := Trimmed(ps[0].1), AsRead(ps[1..]);
      assert CleanKey(AsRead(ps)[0].0) && CleanValue(AsRead(ps)[0].1);
      var a := LineOver(m, ps[0].0, ps[0].1);
      var b := Settle(a);
      var e := [Data(Field, ps[0].0), Data(Value, t)];
      ValueIsLast(m.trace, ps[0].0, t);
      w := BlockOver(b, ps[1..]);
      assert m.trace + LineEvents(AsRead(ps)) == (m.trace + e) + LineEvents(rest);
      if ps[1..] == [] {
        assert Lines(ps) == ps[0].0 + ": " + ps[0].1 + CRLF;
        w := a;
      } else {
        LinesStart(ps[1..]);
        OverSettled(a, Lines(ps[1..]), w);
        OverTrans(m, ps[0].0 + ": " + ps[0].1 + CRLF, a, Lines(ps[1..]), w);
      }
    }
  }

  lemma ValueIsLast(tr: seq<Event>, k: string, v: string)
    ensures !EndsIn(tr + [Data(Field, k), Data(Value, v)], Field)
  {
  }

  lemma OverSettled(a: Machine, s: string, w: Machine)
    requires BetweenLines(a.core.state) && a.core.errno.Ok? && s != "" && s[0] != SP && s[0] != HT
    requires Over(Settle(a), s, w)
    ensures Over(a, s, w)
  {
    hide Transition, Step, Run;
    SettledRun(a, s);
  }

  /* ---- what a block says about the body ------------------------------- */

  /** At most one Content-Length, a decimal number well below 2^64, and no other name that begins like it. */
  predicate Lawful(ps: Pairs, seen: bool)
    requires CleanPairs(ps)
    decreases |ps|
  {
    if ps == [] then true
    else if LowerName(ps[0].0) == "content-length" then
      !seen && ps[0].1 != "" && IsDigits(ps[0].1) && Decimal(ps[0].1) <= U64_MAX - 16 && Lawful(ps[1..], true)
    else !Begins("content-length", LowerName(ps[0].0)) && Lawful(ps[1..], seen)
  }

  /** Some line says "Transfer-Encoding: chunked". */
  predicate SaysChunked(ps: Pairs)
    requires CleanPairs(ps)
    decreases |ps|
  {
    ps != [] && ((LowerName(ps[0].0) == "transfer-encoding" && IsChunkedText(ps[0].1)) || SaysChunked(ps[1..]))
  }

  /** The length announced by a lawful block; `none` when there is none. */
  function Announced(ps: Pairs, none: nat): nat
    requires CleanPairs(ps)
    decreases |ps|
  {
    if ps == [] then none
    else if LowerName(ps[0].0) == "content-length" && ps[0].1 != "" && IsDigits(ps[0].1) then
      Announced(ps[1..], Decimal(ps[0].1))
    else Announced(ps[1..], none)
  }

  /** What the name of a lawful line tells the matcher. */
  lemma NameFraming(m: Matcher, k: string, v: string)
    requires CleanKey(k) && CleanValue(v) && Lawful([(k, v)], m.flags.contentLength)
    ensures
      var n := Name(m, k);
      var isLength := LowerName(k) == CONTENT_LENGTH;
      && n.errno.Ok? && !n.m.hs.HChunked?
      && FramingOf(n.m) == (if isLength then FramingOf(m).(lengthSeen := true) else FramingOf(m))
      && (n.m.hs.HContentLength? <==> isLength)
      && (n.m.hs.HTransferEncoding? <==> LowerName(k) == TRANSFER_ENCODING)
      && (isLength ==> v != "" && IsDigits(v) && Decimal(v) <= U64_MAX - 16)
  {
    hide Name, CleanValue, Decimal, LowerName, IsDigits;
    NameFlags(m, k);
    NameMeans(m, k, HContentLength);
    NameMeans(m, k, HTransferEncoding);
    assert |CONTENT_LENGTH| == 14 && |TRANSFER_ENCODING| == 17;
    NameIsNotToken(m, k);
  }

  /** One lawful line's effect on the framing. */
  lemma LineFraming(m: Matcher, k: string, v: string)
    requires CleanKey(k) && CleanValue(v) && Lawful([(k, v)], m.flags.contentLength)
    ensures
      var r := LineMatcher(m, k, v);
      var n := LowerName(k);
      r.errno.Ok? && FramingOf(r.m) ==
        if n == CONTENT_LENGTH then FramingOf(m).(lengthSeen := true, length := Decimal(v))
        else FramingOf(m).(chunked := m.flags.chunked || (n == TRANSFER_ENCODING && IsChunkedText(v)))
  {
    NameFraming(m, k, v);
    assert CONTENT_LENGTH != TRANSFER_ENCODING;
    hide Name, ValueOf, TokenFlags, CleanKey, CleanValue, Lawful, IsChunkedText, Decimal, LowerName, Harmless;
    var n := Name(m, k);
    if v == "" {
      TokenFraming(n.m);
      EmptyIsNotChunked();
    } else if LowerName(k) == CONTENT_LENGTH {
      LengthIsExact(n.m, v);
      TokenFraming(ValueOf(n.m, v).m);
    } else if LowerName(k) == TRANSFER_ENCODING {
      CodingMeans(n.m, v);
      TokenLength(ValueOf(n.m, v).m);
    } else {
      OtherValue(n.m, v);
    }
  }

  lemma EmptyIsNotChunked()
    ensures !IsChunkedText("")
  {
  }

  lemma TokenLength(m: Matcher)
    ensures TokenFlags(m).contentLength == m.contentLength
  {
  }

  lemma NameIsNotToken(m: Matcher, k: string)
    requires CleanKey(k) && Name(m, k).errno.Ok?
    ensures !Name(m, k).m.hs.HChunked?
  {
    hide NameRun;
    var ch := k[0];
    StartReads(m, ch);
    NameRunReads(NameStart(m, ch), k[1..], [TokenLower(ch)]);
  }

  /** A lawful block is accepted, and leaves exactly the framing that it announces. */
  lemma {:induction false} BlockFraming(m: Matcher, ps: Pairs)
    requires CleanPairs(ps) && Lawful(ps, m.flags.contentLength)
    ensures
      var r := BlockMatcher(m, ps);
      && r.errno.Ok?
      && r.m.flags.chunked == (m.flags.chunked || SaysChunked(ps))
      && r.m.contentLength == Announced(ps, m.contentLength)
      && r.m.flags.trailing == m.flags.trailing && r.m.flags.skipBody == m.flags.skipBody
      && (SaysLength(ps) || m.flags.contentLength <==> r.m.flags.contentLength)
    decreases |ps|
  {
    hide LineMatcher, CleanKey, CleanValue, IsChunkedText, Decimal;
    if ps != [] {
      LineFraming(m, ps[0].0, ps[0].1);
      BlockFraming(LineMatcher(m, ps[0].0, ps[0].1).m, ps[1..]);
    }
  }

  predicate SaysLength(ps: Pairs)
    requires CleanPairs(ps)
    decreases |ps|
  {
    ps != [] && (LowerName(ps[0].0) == "content-length" || SaysLength(ps[1..]))
  }

  lemma {:induction false} NothingAnnounced(ps: Pairs, none: nat)
    requires CleanPairs(ps) && !SaysLength(ps)
    ensures Announced(ps, none) == none
    decreases |ps|
  {
    hide CleanKey, CleanValue;
    if ps != [] { NothingAnnounced(ps[1..], none); }
  }
}
