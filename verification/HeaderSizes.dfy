/**
 What a message counts towards the header limit, exactly: its head, the lines of
 its chunk sizes and its trailer, each on its own, and never a body.
 */
module HeaderSizes {
  import opened Ascii
  import opened ParserTypes
  import opened ParserStep
  import opened ParserMachine
  import opened ParserRuns
  import opened ParserInvariant
  import opened ParserWords
  import opened FieldNames
  import opened FieldValues
  import opened HeaderLines
  import opened HeaderLimit
  import opened ReadLimits
  import opened LoadRuns
  import opened ChunkedCoding
  import opened MessageEnds
  import opened HttpEncoder
  import opened FirstLines
  import opened RoundTrip

  /**
   How many octets of a line are counted twice in the worst case: all but the first of
   the name and of the value that is read.
   */
  function Surplus(k: string, v: string): nat {
    var t := Trimmed(v);
    (if k == "" then 0 else |k| - 1) + (if t == "" then 0 else |t| - 1)
  }

  function SurplusAll(ps: Pairs): nat { if ps == [] then 0 else Surplus(ps[0].0, ps[0].1) + SurplusAll(ps[1..]) }

  /* ---- header lines --------------------------------------------------- */

  lemma KeyTwice(m: Machine, k: string)
    requires m.core.errno.Ok? && m.core.state.HeaderFieldStart? && CleanKey(k) && Name(m.core.m, k).errno.Ok?
    ensures Twice(m, k + ": ") == |k| - 1
  {
    hide Transition, Step, NameRun, NameStart, Over, IsToken, Emit, InLoop, IsTokens;
    TailTokens(k);
    NameFirst(m, k[0]);
    OverOctet(m, k[0]);
    var a := Step(m, k[0]);
    EmitEnds(m.trace, Field, [k[0]]);
    var b := NameOver(a, k[1..]);
    LoopTwice(a, k[1..], b);
    NotInside(m, k[0]);
    OneTwice(m, k[0]);
    TwiceJoins(m, [k[0]], a, k[1..]);
    assert [k[0]] + k[1..] == k;
    OverTrans(m, [k[0]], a, k[1..], b);
    EmitExtend(m.trace, Field, [k[0]], k[1..]);
    Colon(b);
    OverThen(m, k, b, ':');
    ColonEnds(b);
    OneTwice(b, ':');
    TwiceJoins(m, k, b, [':']);
    var c := Step(b, ':');
    NotInside(c, SP);
    OneTwice(c, SP);
    TwiceJoins(m, k + [':'], c, [SP]);
    assert k + [':'] + [SP] == k + ": ";
  }

  lemma TailTokens(k: string)
    requires CleanKey(k)
    ensures IsToken(k[0]) && IsTokens(k[1..])
  {
  }

  lemma NotInside(m: Machine, ch: char)
    requires !m.core.state.HeaderField? && !m.core.state.HeaderValue?
    ensures !InLoop(m, ch)
  {
  }

  lemma ColonEnds(m: Machine)
    requires m.core.state.HeaderField?
    ensures !InLoop(m, ':')
  {
  }

  lemma LineEndOutside(m: Machine, ch: char)
    requires ch == CR || ch == LF
    ensures !InLoop(m, ch)
  {
  }

  /** Line ends are never counted twice. */
  lemma EndTwice(m: Machine)
    requires m.core.errno.Ok? && Step(m, CR).core.errno.Ok?
    ensures Twice(m, CRLF) == 0
  {
    hide Transition, Step, InLoop;
    LineEndOutside(m, CR);
    LineEndOutside(Step(m, CR), LF);
    assert CRLF[0] == CR && CRLF[1..] == [LF];
    OneTwice(Step(m, CR), LF);
  }

  lemma ValueTwice(m: Machine, v: string)
    requires m.core.errno.Ok? && m.core.state.HeaderValueDiscardWs? && CleanValue(v) && v != ""
    requires ValueOf(m.core.m, v).errno.Ok?
    ensures Twice(m, v + CRLF) == |v| - 1
  {
    hide Transition, Step, ValueRun, Over, IsHeaderChar, FirstValueByte, Emit, InLoop;
    ValueFirst(m, v[0]);
    OverOctet(m, v[0]);
    var a := Step(m, v[0]);
    EmitEnds(m.trace, Value, [v[0]]);
    var b := ValueOver(a, v[1..]);
    LoopTwice(a, v[1..], b);
    NotInside(m, v[0]);
    OneTwice(m, v[0]);
    TwiceJoins(m, [v[0]], a, v[1..]);
    assert [v[0]] + v[1..] == v;
    OverTrans(m, [v[0]], a, v[1..], b);
    ValueEnd(b);
    EndTwice(b);
    TwiceJoins(m, v, b, CRLF);
  }

  lemma LineTwiceExactly(m: Machine, k: string, v: string)
    requires m.core.errno.Ok? && m.core.state.HeaderFieldStart? && !EndsIn(m.trace, Field)
    requires CleanKey(k) && CleanValue(Trimmed(v)) && LineMatcher(m.core.m, k, Trimmed(v)).errno.Ok?
    ensures Twice(m, k + ": " + v + CRLF) == Surplus(k, v)
  {
    hide Transition, Step, Over, Name, ValueOf, CleanKey, CleanValue, TokenFlags, Twice, Trimmed, IsPadding;
    assert k != "" by { assert CleanKey(k); KeyIsLong(k); }
    KeyTwice(m, k);
    var a := KeyOver(m, k);
    var t := Trimmed(v);
    var padding := PaddingTrimmed(v);
    PaddingTwice(a, padding);
    var b := PaddingOver(a, padding);
    if t == "" {
      EmptyEnd(b);
      EndTwice(b);
      assert t + CRLF == CRLF;
    } else {
      ValueTwice(b, t);
    }
    TwiceJoins(a, padding, b, t + CRLF);
    TwiceJoins(m, k + ": ", a, padding + (t + CRLF));
    assert k + ": " + v + CRLF == (k + ": ") + (padding + (t + CRLF));
  }

  lemma {:induction false} PaddingTwice(m: Machine, s: string)
    requires m.core.errno.Ok? && m.core.state.HeaderValueDiscardWs? && IsPadding(s)
    ensures Twice(m, s) == 0
    decreases |s|
  {
    hide Transition, Step, InLoop;
    if s != "" {
      Space(m, s[0]);
      NotInside(m, s[0]);
      PaddingTwice(Step(m, s[0]), s[1..]);
    }
  }

  lemma KeyIsLong(k: string)
    requires CleanKey(k)
    ensures k != ""
  {
  }

  lemma SettledTwice(a: Machine, s: string)
    requires BetweenLines(a.core.state) && a.core.errno.Ok? && (s != "" ==> s[0] != SP && s[0] != HT)
    ensures Twice(a, s) == Twice(Settle(a), s)
  {
    hide Transition, Step;
    if s != "" { SettledStep(a, s[0]); }
  }

  lemma {:induction false} BlockTwice(m: Machine, ps: Pairs)
    requires m.core.errno.Ok? && m.core.state.HeaderFieldStart? && !EndsIn(m.trace, Field)
    requires CleanPairs(AsRead(ps)) && BlockMatcher(m.core.m, AsRead(ps)).errno.Ok?
    ensures Twice(m, Lines(ps)) == SurplusAll(ps)
    decreases |ps|
  {
    hide Transition, Step, Over, LineMatcher, CleanKey, CleanValue, TokenFlags, Emit, Run, EndsIn, Twice, Surplus,
      Trimmed;
    if ps == [] {
      NothingTwice(m);
    } else {
      ReadRest(ps);
      var (k, v) := ps[0];
      assert CleanKey(AsRead(ps)[0].0) && CleanValue(AsRead(ps)[0].1);
      var line := k + ": " + v + CRLF;
      var a := LineOver(m, k, v);
      LineTwiceExactly(m, k, v);
      ValueIsLast(m.trace, k, Trimmed(v));
      BlockTwice(Settle(a), ps[1..]);
      if ps[1..] != [] { LinesStart(ps[1..]); }
      SettledTwice(a, Lines(ps[1..]));
      TwiceJoins(m, line, a, Lines(ps[1..]));
    }
  }

  lemma NothingTwice(m: Machine)
    ensures Twice(m, "") == 0
  {
  }

  /* ---- the head ------------------------------------------------------- */

  lemma LineEventsSilent(ps: Pairs)
    ensures forall i :: 0 <= i < |LineEvents(ps)| ==> !Marks(LineEvents(ps)[i])
    decreases |ps|
  {
    if ps != [] {
      LineEventsSilent(ps[1..]);
      var two := [Data(Field, ps[0].0), Data(Value, ps[0].1)];
      forall i | 0 <= i < |LineEvents(ps)| ensures !Marks(LineEvents(ps)[i]) {
        if i >= 2 { assert LineEvents(ps)[i] == LineEvents(ps[1..])[i - 2]; }
      }
    }
  }

  lemma SettleNotes(a: Machine)
    ensures Noted(Settle(a).trace) == Noted(a.trace)
  {
    hide Emit, Noted;
    NotedEmit(a.trace, Data(Value, ""));
    DataMarksNot(Value, "");
  }

  /** A block of lines and its blank line, up to the last octet. */
  lemma BlockCalm(m: Machine, ps: Pairs) returns (x: Machine)
    requires m.core.errno.Ok? && m.core.state.HeaderFieldStart? && !EndsIn(m.trace, Field)
    requires CleanPairs(AsRead(ps)) && BlockMatcher(m.core.m, AsRead(ps)).errno.Ok?
    ensures Over(m, Lines(ps) + [CR], x) && Calm(m, Lines(ps) + [CR]) && Twice(m, Lines(ps) + [CR]) == SurplusAll(ps)
    ensures ParsingHeader(x.core.state) && Noted(x.trace) == Noted(m.trace)
  {
    hide Transition, Step, Over, BlockMatcher, Emit, Run, EndsIn, Twice, Noted, Calm, LineEvents, Lines, CleanPairs,
      AsRead;
    BlockTwice(m, ps);
    var b := BlockOver(m, ps);
    StartsOk(m, Lines(ps), b);
    var c := Settle(b);
    BlankReturn(c);
    OverOctet(c, CR);
    x := Step(c, CR);
    OverSettled(b, [CR], x);
    OverTrans(m, Lines(ps), b, [CR], x);
    SettleNotes(b);
    LineEventsSilent(AsRead(ps));
    NotedAll(m.trace, LineEvents(AsRead(ps)));
    RestsAtStart(m.core.state);
    QuietRun(m, Lines(ps) + [CR], x);
    RestingCounts(x.core.state);
    LineEndOutside(b, CR);
    OneTwice(b, CR);
    TwiceJoins(m, Lines(ps), b, [CR]);
  }

  lemma RestsAtStart(s: State)
    requires s.HeaderFieldStart? || s.StartReqOrRes? || s.ChunkSizeStart?
    ensures Resting(s) && (s.StartReqOrRes? ==> InLine(s)) && (s.ChunkSizeStart? ==> InSize(s))
  {
  }

  lemma FirstLineCalm(m: Machine, f: FirstLine) returns (a: Machine)
    requires m.core == Init(Both, true) && CleanLine(f)
    ensures Over(m, LineText(f), a) && Is(a, AfterLine(f), m.trace + [MessageBegin, LineData(f)])
    ensures Calm(m, LineText(f)) && Twice(m, LineText(f)) == 0 && Noted(a.trace) == Noted(m.trace)
  {
    hide Over, Transition, Step, LineText, CleanLine, Noted, Calm, Twice, MethodString;
    LineIsPlain(f);
    a := FirstLineOver(m, f);
    NotedAll(m.trace, [MessageBegin, LineData(f)]);
    RestsAtStart(m.core.state);
    QuietRun(m, LineText(f), a);
    LineTwice(m, LineText(f), a);
  }

  /** What the head of a message counts. */
  function HeadLoad(r: Message): nat
    requires r.first.minor < 10
  {
    |Head(r)| + SurplusAll(Grouped(r.headers))
  }

  /** A head up to its last octet. */
  lemma HeadCalm(m: Machine, f: FirstLine, ps: Pairs) returns (x: Machine)
    requires m.core == Init(Both, true) && CleanLine(f) && CleanPairs(AsRead(ps)) && Lawful(AsRead(ps), false)
    ensures
      f.minor < 10 &&
      var s := LineText(f) + (Lines(ps) + [CR]);
      Over(m, s, x) && Calm(m, s) && Twice(m, s) == SurplusAll(ps) && ParsingHeader(x.core.state)
  {
    hide Over, Transition, Step, LineText, Lines, CleanLine, Emit, Lawful, LineEvents, Noted, Calm, Twice, BlockMatcher,
      MethodString, CleanPairs, SurplusAll, AsRead;
    LineIsPlain(f);
    var a := FirstLineCalm(m, f);
    BlockFraming(a.core.m, AsRead(ps));
    NoFieldYet(m.trace, f);
    x := BlockCalm(a, ps);
    OverTrans(m, LineText(f), a, Lines(ps) + [CR], x);
    CalmJoins(m, LineText(f), a, Lines(ps) + [CR]);
    TwiceJoins(m, LineText(f), a, Lines(ps) + [CR]);
  }

  lemma HeadCounts(m: Machine, r: Message) returns (w: Machine)
    requires m.core == Init(Both, true) && m.hdr == 0 && Sendable(r)
    ensures Over(m, Head(r), w)
    ensures r.first.minor < 10 && Load(m, 0, Head(r)) == HeadLoad(r) && SingleAll(m, 0, Head(r)) == 0
  {
    hide Over, Transition, Step, LineText, Lines, CleanLine, Emit, Lawful, Load, SingleAll, SurplusAll, Sendable,
      CleanPairs, HeadMatcher, HeadEvents, Bodied, Calm, Twice, Concat, Grouped, AfterLine, Upgraded;
    SendableHead(r);
    var ps := Grouped(r.headers);
    w := HeadOver(m, r);
    var x := HeadCalm(m, r.first, ps);
    var s := LineText(r.first) + (Lines(ps) + [CR]);
    assert s + [LF] == Head(r);
    OverLast(m, s, x, LF, w);
    LineEndOutside(x, LF);
    CalmLoadEnds(m, 0, s, x, LF);
  }

  lemma NoFieldYet(tr: seq<Event>, f: FirstLine)
    ensures !EndsIn(tr + [MessageBegin, LineData(f)], Field)
  {
  }

  /** The last octet of an accepted stretch. */
  lemma OverLast(m: Machine, s: string, x: Machine, ch: char, w: Machine)
    requires Over(m, s, x) && Over(m, s + [ch], w)
    ensures Step(x, ch) == w && w.core.errno.Ok?
    decreases |s|
  {
    hide Transition, Step;
    if s == "" {
      assert s + [ch] == [ch] && [ch][1..] == "" && [ch][0] == ch;
      assert Run(w, "") == Scanned(w, 0);
      OverEnds(m, x);
      OverStep(m, [ch], w);
      OverEnds(Step(m, ch), w);
    } else {
      assert (s + [ch])[0] == s[0] && (s + [ch])[1..] == s[1..] + [ch];
      OverStep(m, s, x);
      OverStep(m, s + [ch], w);
      OverLast(Step(m, s[0]), s[1..], x, ch, w);
    }
  }

  /* ---- chunks --------------------------------------------------------- */

  /** What a chunk counts: the line of its size. */
  function ChunkLoad(d: string): nat { |ToHex(|d|)| + 2 }

  lemma SizeLineCounts(m: Machine, n: nat) returns (w: Machine)
    requires m.core.errno.Ok? && m.core.state.ChunkSizeStart? && m.hdr == 0 && n <= U64_MAX - 16
    ensures Over(m, ToHex(n) + CRLF, w) && w.trace == m.trace + [ChunkHeader(n, false)] && w.hdr == 0
    ensures w.core == if n > 0 then m.core.(state := ChunkData, m := m.core.m.(contentLength := n))
      else m.core.(state := HeaderFieldStart,
                   m := m.core.m.(contentLength := 0, flags := m.core.m.flags.(trailing := true)))
    ensures Load(m, 0, ToHex(n) + CRLF) == |ToHex(n)| + 2 && SingleAll(m, 0, ToHex(n) + CRLF) == 0
  {
    hide Transition, Step, Over, HexDigit, ToHex, Load, SingleAll, Calm, Twice;
    w := SizeLineOver(m, n);
    var a := HexOver(m, n);
    SizeReturn(a);
    OverThen(m, ToHex(n), a, CR);
    var b := Step(a, CR);
    var s := ToHex(n) + [CR];
    RestsAtStart(m.core.state);
    QuietRun(m, s, b);
    RestingCounts(b.core.state);
    SizeTwice(m, s, b);
    assert s + [LF] == ToHex(n) + CRLF;
    OverLast(m, s, b, LF, w);
    LineEndOutside(b, LF);
    CalmLoadEnds(m, 0, s, b, LF);
  }

  lemma DataEndCounts(m: Machine)
    requires m.core.errno.Ok? && m.core.state.ChunkDataAlmostDone?
    ensures Load(m, 0, CRLF) == 0 && SingleAll(m, 0, CRLF) == 0
  {
    hide Transition, Step, Load, SingleAll, Over;
    DataReturn(m);
    var w := Step(m, CR);
    UncountedOctet(m, CR);
    UncountedOctet(w, LF);
    OverOctet(m, CR);
    LoadAfter(m, 0, [CR], w, [LF]);
    assert [CR] + [LF] == CRLF;
  }

  lemma ChunkCounts(m: Machine, d: string)
    requires m.core.errno.Ok? && m.core.state.ChunkSizeStart? && m.hdr == 0 && 0 < |d| <= MAX_STRING
    ensures Load(m, 0, Chunk(d)) == ChunkLoad(d) && SingleAll(m, 0, Chunk(d)) == 0
  {
    hide Transition, Step, Over, ToHex, Emit, Load, SingleAll;
    var line := ToHex(|d|) + CRLF;
    var a := SizeLineCounts(m, |d|);
    var b := DataOver(a, d);
    DataLoad(a, d);
    DataEndCounts(b);
    LoadAfter(a, 0, d, b, CRLF);
    LoadAfter(m, 0, line, a, d + CRLF);
    assert line + (d + CRLF) == Chunk(d);
  }

  function ChunksLoad(bodies: seq<string>): nat {
    if bodies == [] then 0
    else Max(if bodies[0] == "" then 0 else ChunkLoad(bodies[0]), ChunksLoad(bodies[1..]))
  }

  lemma OverKeepsInv(m: Machine, s: string, w: Machine)
    requires Over(m, s, w) && Inv(m)
    ensures Inv(w) && (w.core.state.ChunkSizeStart? ==> w.hdr == 0)
  {
    hide Run, CoreInv;
    RunKeepsInv(m, s);
  }

  lemma {:induction false} ChunksCount(m: Machine, bodies: seq<string>)
    requires m.core.errno.Ok? && m.core.state.ChunkSizeStart? && m.hdr == 0 && Inv(m) && Storable(bodies)
    ensures Load(m, 0, BodiesText(true, bodies)) == ChunksLoad(bodies) && SingleAll(m, 0, BodiesText(true, bodies)) == 0
    decreases |bodies|
  {
    hide Transition, Step, Over, Chunk, Inv, Load, SingleAll, ChunkLoad;
    if bodies == [] {
      NothingCounts(m);
    } else {
      var d, rest := bodies[0], BodiesText(true, bodies[1..]);
      assert BodiesText(true, bodies) == BodyText(true, d) + rest;
      if d == "" {
        ChunksCount(m, bodies[1..]);
        assert "" + rest == rest;
      } else {
        var a := ChunkOver(m, d);
        OverKeepsInv(m, Chunk(d), a);
        ChunksCount(a, bodies[1..]);
        ChunkCounts(m, d);
        LoadAfter(m, 0, Chunk(d), a, rest);
      }
    }
  }

  lemma NothingCounts(m: Machine)
    ensures Load(m, 0, "") == 0 && SingleAll(m, 0, "") == 0
  {
  }

  /* ---- the end of a chunked message ----------------------------------- */

  /** What follows the last chunk counts: the trailer and the blank line. */
  function TrailerLoad(t: Trailer): nat {
    |TrailerLine(t) + CRLF| + (if t.None? then 0 else Surplus(t.value.0, t.value.1))
  }

  function TrailerPairs(t: Trailer): Pairs { if t.None? then [] else [t.value] }

  lemma TrailerIsBlock(t: Trailer)
    ensures Lines(TrailerPairs(t)) == TrailerLine(t)
    ensures SurplusAll(TrailerPairs(t)) == (if t.None? then 0 else Surplus(t.value.0, t.value.1))
  {
    if t.Some? {
      assert [t.value][1..] == [];
      assert Lines([t.value]) == TrailerLine(t) + Lines([]);
      assert SurplusAll([t.value]) == Surplus(t.value.0, t.value.1) + SurplusAll([]);
    }
  }

  lemma TrailerIsLawful(t: Trailer, m: Matcher)
    requires CleanTrailer(t) && !m.flags.contentLength
    ensures CleanPairs(AsRead(TrailerPairs(t))) && BlockMatcher(m, AsRead(TrailerPairs(t))).errno.Ok?
  {
    hide CleanKey, CleanValue, LineMatcher, Trimmed;
    if t.Some? {
      ReadOne(t.value);
      BlockFraming(m, AsRead([t.value]));
    }
  }

  lemma TrailerCounts(m: Machine, t: Trailer)
    requires m.core.errno.Ok? && m.core.state.HeaderFieldStart? && m.core.m.flags.trailing && m.core.resets
      && m.hdr == 0
    requires !EndsIn(m.trace, Field) && CleanTrailer(t) && !m.core.m.flags.contentLength
    ensures Load(m, 0, TrailerLine(t) + CRLF) == TrailerLoad(t) && SingleAll(m, 0, TrailerLine(t) + CRLF) == 0
  {
    hide Over, Transition, Step, Emit, LineMatcher, CleanTrailer, CleanKey, CleanValue, Load, SingleAll, Calm,
      Twice, Lines, SurplusAll, TrailerLine, BlockMatcher, CleanPairs, TrailerPairs, EndsIn, Noted;
    TrailerIsBlock(t);
    TrailerIsLawful(t, m.core.m);
    var w := TrailerOver(m, t);
    var x := BlockCalm(m, TrailerPairs(t));
    var s := TrailerLine(t) + [CR];
    assert s + [LF] == TrailerLine(t) + CRLF;
    OverLast(m, s, x, LF, w);
    LineEndOutside(x, LF);
    CalmLoadEnds(m, 0, s, x, LF);
  }

  function ChunkedLoad(bodies: seq<string>, t: Trailer): nat {
    Max(ChunksLoad(bodies), Max(|TERMINATION|, TrailerLoad(t)))
  }

  lemma ChunkedCounts(m: Machine, bodies: seq<string>, t: Trailer)
    requires m.core.errno.Ok? && m.core.state.ChunkSizeStart? && m.core.resets && !m.core.m.flags.contentLength
    requires m.hdr == 0 && Inv(m) && Storable(bodies) && CleanTrailer(t)
    ensures Load(m, 0, ChunkedText(bodies, t)) == ChunkedLoad(bodies, t) && SingleAll(m, 0, ChunkedText(bodies, t)) == 0
  {
    hide Transition, Step, Over, Inv, BodiesText, TrailerLine, Storable, CleanTrailer, Load, SingleAll, ChunksLoad,
      TrailerLoad;
    ChunksCount(m, bodies);
    var a := ChunksOver(m, bodies);
    OverKeepsInv(m, BodiesText(true, bodies), a);
    var b := SizeLineCounts(a, 0);
    assert ToHex(0) + CRLF == TERMINATION;
    NoFieldAfter(a.trace);
    TrailerCounts(b, t);
    var rest := TrailerLine(t) + CRLF;
    LoadAfter(a, 0, TERMINATION, b, rest);
    LoadAfter(m, 0, BodiesText(true, bodies), a, TERMINATION + rest);
    assert TERMINATION + rest == TERMINATION + TrailerLine(t) + CRLF;
  }

  lemma NoFieldAfter(tr: seq<Event>)
    ensures !EndsIn(tr + [ChunkHeader(0, false)], Field)
  {
  }

  /* ---- messages ------------------------------------------------------- */

  lemma SizedCounts(m: Machine, s: string)
    requires m.core.errno.Ok? && (s != "" ==> m.core.state.BodyIdentity? && m.core.m.contentLength == |s|)
    ensures Load(m, 0, s) == 0 && SingleAll(m, 0, s) == 0
  {
    hide Transition, Step, Emit, Load, SingleAll, Over;
    if s == "" {
      NothingCounts(m);
    } else {
      var n := |s| - 1;
      DataLoad(m, s[..n]);
      var a := m;
      if n > 0 {
        a := DataOver(m, s[..n]);
      } else {
        OverNothing(m);
      }
      assert s[..n] + [s[n]] == s;
      BodyUncounted(a.core.state);
      UncountedOctet(a, s[n]);
      LoadAfter(m, 0, s[..n], a, [s[n]]);
    }
  }

  lemma BodyUncounted(s: State)
    requires s.BodyIdentity?
    ensures !ParsingHeader(s)
  {
  }

  /** The count of a message, from its text alone. */
  function MessageLoad(r: Message): nat
    requires Sendable(r)
  {
    Max(HeadLoad(r), if r.chunked then ChunkedLoad(r.bodies, r.trailer) else 0)
  }

  /** It is exactly what `nread` reaches when every octet is read on its own. */
  lemma MessageCounts(m: Machine, r: Message)
    requires m.core == Init(Both, true) && m.hdr == 0 && Inv(m) && Sendable(r)
    ensures Load(m, 0, Wire(r)) == MessageLoad(r) && SingleAll(m, 0, Wire(r)) == 0
  {
    hide Transition, Step, Over, Inv, Head, TrailerLine, Storable, ChunkedText, BodiesText, CleanTrailer, Lawful,
      Load, SingleAll, HeadEvents, Concat, HeadMatcher, HeadLoad, ChunkedLoad, MethodString, CleanLine, LineText,
      Grouped, SaysLength, Announced;
    var b := HeadCounts(m, r);
    var a := HeadOver(m, r);
    OverKeepsInv(m, Head(r), a);
    if r.chunked {
      ChunkedCounts(a, r.bodies, r.trailer);
      LoadAfter(m, 0, Head(r), a, ChunkedText(r.bodies, r.trailer));
    } else {
      PlainBodies(r.bodies);
      SizedCounts(a, Concat(r.bodies));
      LoadAfter(m, 0, Head(r), a, Concat(r.bodies));
    }
  }

  function Power(n: nat): nat { if n == 0 then 1 else 16 * Power(n - 1) }

  lemma {:induction false} HexLength(n: nat, k: nat)
    requires 0 < k && n < Power(k)
    ensures |ToHex(n)| <= k
    decreases k
  {
    if n >= 16 { HexLength(n / 16, k - 1); }
  }

  lemma SizeLength(n: nat)
    requires n <= MAX_STRING
    ensures |ToHex(n)| <= 16
  {
    assert Power(4) == 0x1_0000;
    assert Power(8) == 0x1_0000 * Power(4) == 0x1_0000_0000;
    assert Power(12) == 0x1_0000 * Power(8);
    assert Power(16) == 0x1_0000 * Power(12) > MAX_STRING;
    HexLength(n, 16);
  }

  lemma {:induction false} ChunksAreSmall(bodies: seq<string>)
    requires Storable(bodies)
    ensures ChunksLoad(bodies) <= 18
    decreases |bodies|
  {
    hide ToHex;
    if bodies != [] {
      ChunksAreSmall(bodies[1..]);
      SizeLength(|bodies[0]|);
    }
  }

  /** The head is within the limit, and so is the trailer. */
  predicate Fits(r: Message)
    requires Sendable(r)
  {
    HeadLoad(r) <= MAX_HEADER_SIZE && (r.chunked ==> TrailerLoad(r.trailer) <= MAX_HEADER_SIZE)
  }

  /** Chunk sizes never matter. */
  lemma FitsMeans(r: Message)
    requires Sendable(r)
    ensures Fits(r) <==> MessageLoad(r) <= MAX_HEADER_SIZE
  {
    ChunksAreSmall(r.bodies);
    hide HeadLoad, TrailerLoad, ChunksLoad;
  }

  function StreamLoad(rs: seq<Message>): nat
    requires AllSendable(rs)
  {
    if rs == [] then 0 else Max(MessageLoad(rs[0]), StreamLoad(rs[1..]))
  }

  lemma {:induction false} StreamCounts(m: Machine, rs: seq<Message>)
    requires m.core == Init(Both, true) && m.hdr == 0 && Inv(m) && AllSendable(rs)
    ensures Load(m, 0, Stream(rs)) == StreamLoad(rs)
    decreases |rs|
  {
    hide Transition, Step, Over, Inv, Wire, MessageLoad, Sendable, WireEvents, Load, SingleAll;
    if rs == [] {
      NothingCounts(m);
    } else {
      var a := MessageOver(m, rs[0]);
      OverKeepsInv(m, Wire(rs[0]), a);
      MessageCounts(m, rs[0]);
      StreamCounts(a, rs[1..]);
      LoadAfter(m, 0, Wire(rs[0]), a, Stream(rs[1..]));
    }
  }
}
